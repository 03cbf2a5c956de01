/** The aggregate engine: windows over the order column, one aggregate per window and constraint,
    and the share of rows that the violated windows exclude. */
module AggregateEngine {
  import opened Common
  import opened Schema
  import opened AggregateWindows
  import Filter = InterRowFilter

  datatype Column =
    | Doubles(doubles: seq<seq<real>>)
    | Floats(floats: seq<seq<real>>)
    | Int64s(ints: seq<seq<int>>)
    | OtherColumn(length: nat)

  datatype Table = Table(columns: seq<Column>, rows: nat)

  datatype AggregateConstraint = AggregateConstraint(name: string, column: string, function_: Aggregate, interval: int,
                                                     minVal: Option<real>, maxVal: Option<real>)

  datatype AggregateResult = EmptyWindow | NoSuchColumn | Value(value: real)

  datatype ExclusionRate = ExclusionRate(constraint: string, rate: real, isPartial: bool)

  datatype PhaseTwo = PhaseTwo(windows: seq<Window>, rates: seq<ExclusionRate>, violated: nat, total: nat)

  function Length(c: Column): nat {
    match c
    case Doubles(chunks) => |Filter.Flatten(chunks)|
    case Floats(chunks) => |Filter.Flatten(chunks)|
    case Int64s(chunks) => |Filter.Flatten(chunks)|
    case OtherColumn(length) => length
  }

  function AsReals(v: seq<int>): (r: seq<real>)
    ensures |r| == |v|
  {
    seq(|v|, i requires 0 <= i < |v| => v[i] as real)
  }

  /** The numbers of a column; a column that is not numeric has none. */
  function NumbersOf(c: Column): seq<real> {
    match c
    case Doubles(chunks) => Filter.Flatten(chunks)
    case Floats(chunks) => Filter.Flatten(chunks)
    case Int64s(chunks) => AsReals(Filter.Flatten(chunks))
    case OtherColumn(_) => []
  }

  /** Position of the first order column, or -1. */
  function OrderIndex(columns: seq<ColumnDef>): (i: int)
    ensures -1 <= i < |columns|
    ensures i >= 0 ==> columns[i].isOrder
    ensures forall j | 0 <= j < (if i < 0 then |columns| else i) :: !columns[j].isOrder
  {
    if columns == [] then -1
    else if columns[0].isOrder then 0
    else var i := OrderIndex(columns[1..]); if i < 0 then -1 else i + 1
  }

  /** The columns of the schema are there with a cell for every row, and the order column holds integers. */
  predicate Matches(schema: Schema, t: Table) {
    && |t.columns| == |schema.columns|
    && (forall c | 0 <= c < |t.columns| :: Length(t.columns[c]) == t.rows)
    && (OrderIndex(schema.columns) >= 0 ==> t.columns[OrderIndex(schema.columns)].Int64s?)
  }

  function Timestamps(schema: Schema, t: Table): (ts: seq<int>)
    requires Matches(schema, t)
    ensures ts == [] || |ts| == t.rows
  {
    var i := OrderIndex(schema.columns);
    if i < 0 then [] else Filter.Flatten(t.columns[i].ints)
  }

  /** The values at those of the given rows that the column has. */
  function ValuesAt(rows: seq<nat>, v: seq<real>): seq<real> {
    if rows == [] then []
    else ValuesAt(rows[..|rows| - 1], v) + (if rows[|rows| - 1] < |v| then [v[rows[|rows| - 1]]] else [])
  }

  /** What one constraint says about one window. */
  function Evaluated(schema: Schema, t: Table, w: Window, c: AggregateConstraint): AggregateResult
    requires Matches(schema, t)
  {
    if w.includedRows == [] then EmptyWindow
    else if IndexOf(schema.columns, c.column) < 0 then NoSuchColumn
    else Value(Aggregated(c.function_, ValuesAt(w.includedRows, NumbersOf(t.columns[IndexOf(schema.columns, c.column)]))))
  }

  predicate OutOfBounds(c: AggregateConstraint, x: real) {
    (c.minVal.Some? && x < c.minVal.value) || (c.maxVal.Some? && x > c.maxVal.value)
  }

  /** Phase two after one more window. */
  function Judged(p: PhaseTwo, schema: Schema, t: Table, c: AggregateConstraint, w: Window): PhaseTwo
    requires Matches(schema, t)
  {
    var r := Evaluated(schema, t, w, c);
    if !r.Value? then p
    else if OutOfBounds(c, r.value) then
      p.(windows := p.windows + [w], rates := p.rates + [ExclusionRate(c.name, 1.0, w.isPartial)], violated := p.violated + 1)
    else p.(windows := p.windows + [w])
  }

  function JudgedAll(p: PhaseTwo, schema: Schema, t: Table, c: AggregateConstraint, ws: seq<Window>): PhaseTwo
    requires Matches(schema, t)
  {
    if ws == [] then p
    else Judged(JudgedAll(p, schema, t, c, ws[..|ws| - 1]), schema, t, c, ws[|ws| - 1])
  }

  /** Phase two after these constraints; one without a positive interval is skipped. */
  function PhaseTwoOf(schema: Schema, t: Table, cs: seq<AggregateConstraint>): PhaseTwo
    requires Matches(schema, t)
  {
    if cs == [] then PhaseTwo([], [], 0, 0)
    else
      var p, c := PhaseTwoOf(schema, t, cs[..|cs| - 1]), cs[|cs| - 1];
      if c.interval <= 0 then p
      else
        var ws := WindowsOf(Timestamps(schema, t), c.interval);
        JudgedAll(p.(total := p.total + |ws|), schema, t, c, ws)
  }

  // ---------------------------------------------------------------- windows and columns agree

  /** The rows a window lists are the slice of the column between its first and last row. */
  lemma {:induction false} ValuesAtRange(v: seq<real>, first: nat, end: nat)
    requires first <= end <= |v|
    ensures ValuesAt(Range(first, end), v) == v[first..end]
    decreases end
  {
    if first < end {
      ValuesAtRange(v, first, end - 1);
      assert Range(first, end)[..end - first - 1] == Range(first, end - 1);
    }
  }

  /** Every window of the batch has a value under a constraint on a numeric column, and it is the
      aggregate of the window's slice of that column. */
  lemma WindowValue(schema: Schema, t: Table, c: AggregateConstraint, k: nat)
    requires Matches(schema, t) && c.interval > 0 && IndexOf(schema.columns, c.column) >= 0
    requires k < |WindowsOf(Timestamps(schema, t), c.interval)|
    requires !t.columns[IndexOf(schema.columns, c.column)].OtherColumn?
    ensures var w := WindowsOf(Timestamps(schema, t), c.interval)[k];
            var v := NumbersOf(t.columns[IndexOf(schema.columns, c.column)]);
            && w.startRow <= w.endRow < |v|
            && Evaluated(schema, t, w, c) == Value(Aggregated(c.function_, Slice(w, v)))
  {
    hide Aggregated, ValuesAt, WindowsFrom;
    var ts := Timestamps(schema, t);
    var ws := WindowsOf(ts, c.interval);
    var v := NumbersOf(t.columns[IndexOf(schema.columns, c.column)]);
    assert |v| == t.rows;
    var cuts := WindowsPartition(ts, c.interval);
    assert IsWindow(ws[k], ts, c.interval, cuts[k], cuts[k + 1], k == |ws| - 1);
    ValuesAtRange(v, cuts[k], cuts[k + 1]);
    assert ws[k].includedRows == Range(cuts[k], cuts[k + 1]);
    assert ws[k].includedRows[0] == cuts[k];
  }

  /** What the engine computes for the windows of a batch recombines to the whole column. */
  lemma EngineRecombines(schema: Schema, t: Table, c: AggregateConstraint, values: seq<real>)
    requires Matches(schema, t) && c.interval > 0 && IndexOf(schema.columns, c.column) >= 0
    requires Timestamps(schema, t) != [] && !t.columns[IndexOf(schema.columns, c.column)].OtherColumn?
    requires var ws := WindowsOf(Timestamps(schema, t), c.interval);
             |values| == |ws| && forall k | 0 <= k < |ws| :: Evaluated(schema, t, ws[k], c) == Value(values[k])
    ensures var v := NumbersOf(t.columns[IndexOf(schema.columns, c.column)]);
            && v != [] && values != []
            && (c.function_ == Sum ==> SumOf(values) == SumOf(v))
            && (c.function_ == Avg ==> Weighted(WindowsOf(Timestamps(schema, t), c.interval), values, |values|) == SumOf(v))
            && (c.function_ == Count ==> SumOf(values) == t.rows as real)
            && (c.function_ == Min ==> MinOf(values) == MinOf(v))
            && (c.function_ == Max ==> MaxOf(values) == MaxOf(v))
  {
    hide WindowsFrom, Aggregated, Evaluated, MinOf, MaxOf, SumOf, IsWindow;
    var ts := Timestamps(schema, t);
    var ws := WindowsOf(ts, c.interval);
    var v := NumbersOf(t.columns[IndexOf(schema.columns, c.column)]);
    var cuts := WindowsPartition(ts, c.interval);
    WindowsRecombine(ws, cuts, ts, c.interval, v);
    forall k | 0 <= k < |ws| ensures values[k] == Aggregated(c.function_, Slice(ws[k], v)) {
      WindowValue(schema, t, c, k);
    }
    assert values == PerWindow(c.function_, ws, v);
  }

  // ---------------------------------------------------------------- exclusion

  predicate Bounded(p: PhaseTwo) {
    && p.violated == |p.rates| <= |p.windows| <= p.total
    && forall i | 0 <= i < |p.rates| :: p.rates[i].rate == 1.0
  }

  lemma {:induction false} JudgedAllBounded(p: PhaseTwo, schema: Schema, t: Table, c: AggregateConstraint, ws: seq<Window>)
    requires Matches(schema, t) && Bounded(p.(total := |p.windows|))
    ensures var q := JudgedAll(p, schema, t, c, ws);
            q.total == p.total && Bounded(q.(total := |q.windows|)) && |q.windows| <= |p.windows| + |ws|
  {
    hide Evaluated, OutOfBounds;
    if ws != [] {
      JudgedAllBounded(p, schema, t, c, ws[..|ws| - 1]);
    }
  }

  /** Each violated window is reported once with rate one, and none is violated that is not counted. */
  lemma {:induction false} PhaseTwoBounded(schema: Schema, t: Table, cs: seq<AggregateConstraint>)
    requires Matches(schema, t)
    ensures Bounded(PhaseTwoOf(schema, t, cs))
  {
    hide JudgedAll;
    if cs != [] {
      var p, c := PhaseTwoOf(schema, t, cs[..|cs| - 1]), cs[|cs| - 1];
      PhaseTwoBounded(schema, t, cs[..|cs| - 1]);
      if c.interval > 0 {
        var ws := WindowsOf(Timestamps(schema, t), c.interval);
        JudgedAllBounded(p.(total := p.total + |ws|), schema, t, c, ws);
      }
    }
  }

  // ---------------------------------------------------------------- which windows are violated

  /** The window number `.1` of the constraint number `.0`. */
  type Place = (nat, nat)

  function PlaceAt(i: nat, k: nat): Place { (i, k) }

  predicate Before(a: Place, b: Place) { a.0 < b.0 || (a.0 == b.0 && a.1 < b.1) }

  predicate InOrder(places: seq<Place>) { forall i, j | 0 <= i < j < |places| :: Before(places[i], places[j]) }

  /** A window of a constraint with a positive interval. */
  predicate Counted(cs: seq<AggregateConstraint>, ts: seq<int>, at: Place) {
    at.0 < |cs| && cs[at.0].interval > 0 && at.1 < |WindowsOf(ts, cs[at.0].interval)|
  }

  function WindowIn(cs: seq<AggregateConstraint>, ts: seq<int>, at: Place): Window
    requires Counted(cs, ts, at)
  {
    WindowsOf(ts, cs[at.0].interval)[at.1]
  }

  predicate HasValue(schema: Schema, t: Table, cs: seq<AggregateConstraint>, at: Place, x: real)
    requires Matches(schema, t)
  {
    var ts := Timestamps(schema, t);
    Counted(cs, ts, at) && Evaluated(schema, t, WindowIn(cs, ts, at), cs[at.0]) == Value(x)
  }

  /** The value of the window lies below the minimum of its constraint or above the maximum. */
  ghost predicate Violates(schema: Schema, t: Table, cs: seq<AggregateConstraint>, at: Place)
    requires Matches(schema, t)
  {
    exists x :: HasValue(schema, t, cs, at, x) &&
      ((cs[at.0].minVal.Some? && x < cs[at.0].minVal.value) || (cs[at.0].maxVal.Some? && cs[at.0].maxVal.value < x))
  }

  ghost predicate Judgeable(schema: Schema, t: Table, cs: seq<AggregateConstraint>, at: Place)
    requires Matches(schema, t)
  {
    exists x :: HasValue(schema, t, cs, at, x)
  }

  /** The windows with a value, in order, as `p` lists them. */
  ghost predicate ListsValued(schema: Schema, t: Table, cs: seq<AggregateConstraint>, windows: seq<Window>, end: Place, valued: seq<Place>)
    requires Matches(schema, t)
  {
    var ts := Timestamps(schema, t);
    && InOrder(valued) && (forall at :: at in valued <==> Before(at, end) && Judgeable(schema, t, cs, at))
    && |windows| == |valued|
    && forall j | 0 <= j < |valued| :: Counted(cs, ts, valued[j]) && windows[j] == WindowIn(cs, ts, valued[j])
  }

  /** The violated windows, in order, as `p` reports them. */
  ghost predicate ListsViolated(schema: Schema, t: Table, cs: seq<AggregateConstraint>, rates: seq<ExclusionRate>, end: Place, violated: seq<Place>)
    requires Matches(schema, t)
  {
    var ts := Timestamps(schema, t);
    && InOrder(violated) && (forall at :: at in violated <==> Before(at, end) && Violates(schema, t, cs, at))
    && |rates| == |violated|
    && forall j | 0 <= j < |violated| ::
         && Counted(cs, ts, violated[j])
         && rates[j] == ExclusionRate(cs[violated[j].0].name, 1.0, WindowIn(cs, ts, violated[j]).isPartial)
  }

  ghost predicate Reported(schema: Schema, t: Table, cs: seq<AggregateConstraint>, p: PhaseTwo, end: Place,
                           valued: seq<Place>, violated: seq<Place>)
    requires Matches(schema, t)
  {
    && ListsValued(schema, t, cs, p.windows, end, valued)
    && ListsViolated(schema, t, cs, p.rates, end, violated) && p.violated == |p.rates|
  }

  lemma OrderGrows(places: seq<Place>, at: Place)
    requires InOrder(places) && forall b | b in places :: Before(b, at)
    ensures InOrder(places + [at])
  {
    forall i | 0 <= i < |places| ensures Before(places[i], at) { assert places[i] in places; }
  }

  lemma NextPlace(at: Place, b: Place)
    ensures Before(b, (at.0, at.1 + 1)) <==> Before(b, at) || b == at
  {
    if b.0 == at.0 && b.1 == at.1 { assert b == (b.0, b.1) == (at.0, at.1) == at; }
  }

  lemma MoreValued(schema: Schema, t: Table, cs: seq<AggregateConstraint>, windows: seq<Window>, at: Place, valued: seq<Place>)
    requires Matches(schema, t) && Counted(cs, Timestamps(schema, t), at) && ListsValued(schema, t, cs, windows, at, valued)
    ensures var w, next := WindowIn(cs, Timestamps(schema, t), at), (at.0, at.1 + 1);
            if Judgeable(schema, t, cs, at) then ListsValued(schema, t, cs, windows + [w], next, valued + [at])
            else ListsValued(schema, t, cs, windows, next, valued)
  {
    hide Matches, WindowIn, Counted, Judgeable, Timestamps, InOrder;
    OrderGrows(valued, at);
    hide Before;
    forall b: Place ensures Before(b, (at.0, at.1 + 1)) <==> Before(b, at) || b == at { NextPlace(at, b); }
  }

  lemma MoreViolated(schema: Schema, t: Table, cs: seq<AggregateConstraint>, rates: seq<ExclusionRate>, at: Place, violated: seq<Place>)
    requires Matches(schema, t) && Counted(cs, Timestamps(schema, t), at) && ListsViolated(schema, t, cs, rates, at, violated)
    ensures var w, next := WindowIn(cs, Timestamps(schema, t), at), (at.0, at.1 + 1);
            if Violates(schema, t, cs, at) then
              ListsViolated(schema, t, cs, rates + [ExclusionRate(cs[at.0].name, 1.0, w.isPartial)], next, violated + [at])
            else ListsViolated(schema, t, cs, rates, next, violated)
  {
    hide Matches, WindowIn, Violates, Timestamps, InOrder;
    OrderGrows(violated, at);
    hide Before;
    forall b: Place ensures Before(b, (at.0, at.1 + 1)) <==> Before(b, at) || b == at { NextPlace(at, b); }
  }

  lemma PlaceJudged(schema: Schema, t: Table, cs: seq<AggregateConstraint>, at: Place)
    requires Matches(schema, t) && Counted(cs, Timestamps(schema, t), at)
    ensures var r := Evaluated(schema, t, WindowIn(cs, Timestamps(schema, t), at), cs[at.0]);
            && (Judgeable(schema, t, cs, at) <==> r.Value?)
            && (Violates(schema, t, cs, at) <==> r.Value? && OutOfBounds(cs[at.0], r.value))
  {
    hide Evaluated, Matches, WindowsOf, Timestamps;
    var r := Evaluated(schema, t, WindowIn(cs, Timestamps(schema, t), at), cs[at.0]);
    hide WindowIn, Counted;
    if r.Value? { assert HasValue(schema, t, cs, at, r.value); }
    if Judgeable(schema, t, cs, at) {
      var x :| HasValue(schema, t, cs, at, x);
      assert r == Value(x);
    }
    if Violates(schema, t, cs, at) {
      var x :| HasValue(schema, t, cs, at, x) &&
        ((cs[at.0].minVal.Some? && x < cs[at.0].minVal.value) || (cs[at.0].maxVal.Some? && cs[at.0].maxVal.value < x));
      assert r == Value(x);
    }
  }

  lemma JudgedReports(schema: Schema, t: Table, cs: seq<AggregateConstraint>, p: PhaseTwo, at: Place,
                      valued: seq<Place>, violated: seq<Place>) returns (valued': seq<Place>, violated': seq<Place>)
    requires Matches(schema, t) && Counted(cs, Timestamps(schema, t), at) && Reported(schema, t, cs, p, at, valued, violated)
    ensures Reported(schema, t, cs, Judged(p, schema, t, cs[at.0], WindowIn(cs, Timestamps(schema, t), at)), (at.0, at.1 + 1), valued', violated')
  {
    hide Evaluated, Matches, WindowsOf, Timestamps, ListsValued, ListsViolated;
    var r := Evaluated(schema, t, WindowIn(cs, Timestamps(schema, t), at), cs[at.0]);
    PlaceJudged(schema, t, cs, at);
    MoreValued(schema, t, cs, p.windows, at, valued);
    MoreViolated(schema, t, cs, p.rates, at, violated);
    valued' := if r.Value? then valued + [at] else valued;
    violated' := if r.Value? && OutOfBounds(cs[at.0], r.value) then violated + [at] else violated;
  }

  lemma {:induction false} AllJudgedReport(schema: Schema, t: Table, cs: seq<AggregateConstraint>, p: PhaseTwo, n: nat, m: nat,
                                           valued: seq<Place>, violated: seq<Place>)
    returns (valued': seq<Place>, violated': seq<Place>)
    requires Matches(schema, t) && n < |cs| && cs[n].interval > 0 && m <= |WindowsOf(Timestamps(schema, t), cs[n].interval)|
    requires Reported(schema, t, cs, p, (n, 0), valued, violated)
    ensures Reported(schema, t, cs, JudgedAll(p, schema, t, cs[n], WindowsOf(Timestamps(schema, t), cs[n].interval)[..m]), (n, m), valued', violated')
  {
    hide Matches, WindowsOf, Timestamps, Reported, Judged;
    var ws := WindowsOf(Timestamps(schema, t), cs[n].interval);
    if m == 0 {
      valued', violated' := valued, violated;
    } else {
      assert ws[..m][..m - 1] == ws[..m - 1];
      valued', violated' := AllJudgedReport(schema, t, cs, p, n, m - 1, valued, violated);
      var before := JudgedAll(p, schema, t, cs[n], ws[..m - 1]);
      valued', violated' := JudgedReports(schema, t, cs, before, (n, m - 1), valued', violated');
    }
  }

  lemma NextConstraint(schema: Schema, t: Table, cs: seq<AggregateConstraint>, p: PhaseTwo, n: nat, m: nat,
                       valued: seq<Place>, violated: seq<Place>)
    requires Matches(schema, t) && n < |cs| && Reported(schema, t, cs, p, (n, m), valued, violated)
    requires cs[n].interval <= 0 || m == |WindowsOf(Timestamps(schema, t), cs[n].interval)|
    ensures Reported(schema, t, cs, p, (n + 1, 0), valued, violated)
  {
    hide Matches, WindowsOf, Timestamps, Evaluated, WindowIn;
    forall at | Counted(cs, Timestamps(schema, t), at) ensures Before(at, (n, m)) <==> Before(at, (n + 1, 0)) {
    }
    assert forall at | Judgeable(schema, t, cs, at) || Violates(schema, t, cs, at) :: Counted(cs, Timestamps(schema, t), at);
    hide Judgeable, Violates, Counted;
  }

  lemma {:induction false} ReportsUpTo(schema: Schema, t: Table, cs: seq<AggregateConstraint>, n: nat)
    returns (valued: seq<Place>, violated: seq<Place>)
    requires Matches(schema, t) && n <= |cs|
    ensures Reported(schema, t, cs, PhaseTwoOf(schema, t, cs[..n]), (n, 0), valued, violated)
  {
    hide Matches, WindowsOf, Timestamps, JudgedAll;
    if n == 0 {
      valued, violated := [], [];
    } else {
      assert cs[..n][..n - 1] == cs[..n - 1];
      valued, violated := ReportsUpTo(schema, t, cs, n - 1);
      var p, c := PhaseTwoOf(schema, t, cs[..n - 1]), cs[n - 1];
      if c.interval > 0 {
        var ws := WindowsOf(Timestamps(schema, t), c.interval);
        assert ws[..|ws|] == ws;
        var p' := p.(total := p.total + |ws|);
        assert Reported(schema, t, cs, p', (n - 1, 0), valued, violated);
        hide Reported;
        valued, violated := AllJudgedReport(schema, t, cs, p', n - 1, |ws|, valued, violated);
        NextConstraint(schema, t, cs, JudgedAll(p', schema, t, c, ws), n - 1, |ws|, valued, violated);
      } else {
        hide Reported;
        NextConstraint(schema, t, cs, p, n - 1, 0, valued, violated);
      }
    }
  }

  /** Phase two reports exactly the violated windows: those of a constraint with a positive interval
      whose value exists and lies below the minimum or above the maximum, in the order of the
      constraints and of their windows, each with the name of its constraint; and it lists exactly the
      windows that have a value. */
  lemma ReportsViolations(schema: Schema, t: Table, cs: seq<AggregateConstraint>) returns (valued: seq<Place>, violated: seq<Place>)
    requires Matches(schema, t)
    ensures InOrder(valued) && forall at :: at in valued <==> Judgeable(schema, t, cs, at)
    ensures InOrder(violated) && forall at :: at in violated <==> Violates(schema, t, cs, at)
    ensures var p, ts := PhaseTwoOf(schema, t, cs), Timestamps(schema, t);
            && |p.windows| == |valued|
            && (forall j | 0 <= j < |valued| :: Counted(cs, ts, valued[j]) && p.windows[j] == WindowIn(cs, ts, valued[j]))
            && p.violated == |p.rates| == |violated|
            && forall j | 0 <= j < |violated| ::
                 && Counted(cs, ts, violated[j])
                 && p.rates[j] == ExclusionRate(cs[violated[j].0].name, 1.0, WindowIn(cs, ts, violated[j]).isPartial)
  {
    hide Matches, WindowsOf, Timestamps, PhaseTwoOf, Evaluated, WindowIn;
    assert cs[..|cs|] == cs;
    valued, violated := ReportsUpTo(schema, t, cs, |cs|);
  }

  /** Some row is excluded only if some window is violated. */
  lemma NothingViolated(schema: Schema, t: Table, cs: seq<AggregateConstraint>)
    requires Matches(schema, t)
    requires forall at: Place, x | HasValue(schema, t, cs, at, x) ::
               (cs[at.0].minVal.Some? ==> cs[at.0].minVal.value <= x) && (cs[at.0].maxVal.Some? ==> x <= cs[at.0].maxVal.value)
    ensures PhaseTwoOf(schema, t, cs).violated == 0 && PhaseTwoOf(schema, t, cs).rates == []
    ensures TotalExclusionRate(PhaseTwoOf(schema, t, cs), t.rows) == 0.0
  {
    hide Matches, HasValue, PhaseTwoOf;
    var valued, violated := ReportsViolations(schema, t, cs);
    if violated != [] {
      HasFirst(violated);
      assert false;
    }
  }

  lemma HasFirst(places: seq<Place>)
    requires places != []
    ensures exists at :: at in places
  {
    assert places[0] in places;
  }

  /** All windows of all constraints with a positive interval are counted. */
  lemma {:induction false} CountsAllWindows(schema: Schema, t: Table, cs: seq<AggregateConstraint>, n: nat) returns (counted: seq<Place>)
    requires Matches(schema, t) && n <= |cs|
    ensures InOrder(counted) && |counted| == PhaseTwoOf(schema, t, cs[..n]).total
    ensures forall at :: at in counted <==> at.0 < n && Counted(cs, Timestamps(schema, t), at)
  {
    hide Matches, WindowsOf, Timestamps, JudgedAll;
    if n == 0 {
      counted := [];
    } else {
      assert cs[..n][..n - 1] == cs[..n - 1];
      counted := CountsAllWindows(schema, t, cs, n - 1);
      var p, c := PhaseTwoOf(schema, t, cs[..n - 1]), cs[n - 1];
      if c.interval > 0 {
        var ws, last: nat := WindowsOf(Timestamps(schema, t), c.interval), n - 1;
        TotalStays(p.(total := p.total + |ws|), schema, t, c, ws);
        var more := seq(|ws|, k requires 0 <= k < |ws| => PlaceAt(last, k));
        assert forall at: Place :: at in more <==> at.0 == n - 1 && at.1 < |ws| by {
          forall at: Place | at.0 == n - 1 && at.1 < |ws| ensures at in more { assert more[at.1] == at; }
        }
        forall i, j | 0 <= i < |counted| && 0 <= j < |more| ensures Before(counted[i], more[j]) { assert counted[i] in counted; }
        counted := counted + more;
      }
    }
  }

  lemma {:induction false} TotalStays(p: PhaseTwo, schema: Schema, t: Table, c: AggregateConstraint, ws: seq<Window>)
    requires Matches(schema, t)
    ensures JudgedAll(p, schema, t, c, ws).total == p.total
  {
    hide Evaluated, OutOfBounds, Matches;
    if ws != [] {
      TotalStays(p, schema, t, c, ws[..|ws| - 1]);
    }
  }

  /** When a window has a value at all, and when there is none, which error it is. */
  lemma EvaluatedWhen(schema: Schema, t: Table, w: Window, c: AggregateConstraint)
    requires Matches(schema, t)
    ensures var r := Evaluated(schema, t, w, c);
            && (r == EmptyWindow <==> w.includedRows == [])
            && (r == NoSuchColumn <==> w.includedRows != [] && forall d | d in schema.columns :: d.name != c.column)
            && (r.Value? ==> exists i :: 0 <= i < |t.columns| && schema.columns[i].name == c.column
                                         && (t.columns[i].OtherColumn? ==> r.value == 0.0))
  {
    var i := IndexOf(schema.columns, c.column);
    if i >= 0 {
      assert schema.columns[i] in schema.columns;
      if t.columns[i].OtherColumn? { NoValues(w.includedRows); }
    }
  }

  lemma {:induction false} NoValues(rows: seq<nat>)
    ensures ValuesAt(rows, []) == []
  {
    if rows != [] { NoValues(rows[..|rows| - 1]); }
  }

  function AtLeastOne(n: nat): nat { if n > 1 then n else 1 }

  /** Rows excluded: a violated window stands for its equal share of the rows, rounded down. */
  function Excluded(p: PhaseTwo, rows: nat): int {
    p.violated * (rows / AtLeastOne(p.total))
  }

  function TotalExclusionRate(p: PhaseTwo, rows: nat): real {
    if rows > 0 then Excluded(p, rows) as real / rows as real else 0.0
  }

  lemma FloorOfQuotient(a: nat, b: nat)
    requires b > 0
    ensures (1.0 * a as real / b as real).Floor == a / b
  {
    var q, r := a / b, a % b;
    assert a == q * b + r;
    assert a as real == q as real * b as real + r as real by { ProductReal(q, b); }
    assert a as real / b as real == q as real + r as real / b as real;
    assert 0.0 <= r as real / b as real < 1.0;
  }

  lemma ProductReal(q: nat, b: nat)
    ensures (q * b) as real == q as real * b as real
  {
  }

  lemma ShareBound(violated: nat, total: nat, rows: nat)
    requires violated <= total && total > 0
    ensures violated * (rows / total) * total <= violated * rows <= total * rows
    ensures violated * (rows / total) * total == violated * rows <==> violated == 0 || rows % total == 0
  {
    var q, r := rows / total, rows % total;
    assert rows == q * total + r;
    assert violated * q * total == violated * (q * total);
    assert violated * rows == violated * (q * total) + violated * r;
    assert violated * r == 0 <==> violated == 0 || r == 0;
  }

  lemma QuotientAtMost(a: nat, b: nat, c: nat, d: nat)
    requires b > 0 && d > 0
    ensures a as real / b as real <= c as real / d as real <==> a * d <= c * b
    ensures a as real / b as real == c as real / d as real <==> a * d == c * b
  {
    var x, y := a as real / b as real, c as real / d as real;
    assert a as real == x * b as real && c as real == y * d as real;
    ProductReal(a, d);
    ProductReal(c, b);
    var bd := b as real * d as real;
    assert a as real * d as real == x * bd && c as real * b as real == y * bd;
    assert x <= y <==> x * bd <= y * bd;
  }

  /** The exclusion rate is at most the share of violated windows, and equal to it exactly when no
      window is violated or the windows divide the rows evenly. */
  lemma ExclusionRateBound(p: PhaseTwo, rows: nat)
    requires Bounded(p) && rows > 0 && p.total > 0
    ensures 0.0 <= TotalExclusionRate(p, rows) <= p.violated as real / p.total as real <= 1.0
    ensures TotalExclusionRate(p, rows) == p.violated as real / p.total as real <==> p.violated == 0 || rows % p.total == 0
  {
    var x := p.violated * (rows / p.total);
    assert x >= 0;
    ShareBound(p.violated, p.total, rows);
    QuotientAtMost(x, rows, p.violated, p.total);
    QuotientAtMost(p.violated, p.total, 1, 1);
    assert x as real / rows as real >= 0.0;
  }

  // ---------------------------------------------------------------- the engine

  /** Compensated summation; over the reals the compensation stays zero. */
  method KahanSum(v: seq<real>) returns (sum: real)
    ensures sum == SumOf(v)
  {
    sum := 0.0;
    var compensation := 0.0;
    for i := 0 to |v|
      invariant compensation == 0.0 && sum == SumOf(v[..i])
    {
      var y := v[i] - compensation;
      var t := sum + y;
      compensation := (t - sum) - y;
      sum := t;
      assert v[..i + 1][..i] == v[..i];
    }
    assert v[..|v|] == v;
  }

  method Flattened<T>(chunks: seq<seq<T>>) returns (v: seq<T>)
    ensures v == Filter.Flatten(chunks)
  {
    v := [];
    for ci := 0 to |chunks|
      invariant Filter.Flatten(chunks) == v + Filter.Flatten(chunks[ci..])
    {
      assert chunks[ci..][1..] == chunks[ci + 1..];
      ghost var before := v;
      for j := 0 to |chunks[ci]|
        invariant v == before + chunks[ci][..j]
      {
        v := v + [chunks[ci][j]];
      }
    }
  }

  class Engine {
    const schema: Schema
    const constraints: seq<AggregateConstraint>
    var orderIndex: int

    ghost predicate Valid() reads this {
      orderIndex == OrderIndex(schema.columns)
    }

    constructor (schema: Schema, constraints: seq<AggregateConstraint>)
      ensures Valid() && this.schema == schema && this.constraints == constraints
    {
      this.schema := schema;
      this.constraints := constraints;
      var i := 0;
      while i < |schema.columns| && !schema.columns[i].isOrder
        invariant 0 <= i <= |schema.columns|
        invariant forall j | 0 <= j < i :: !schema.columns[j].isOrder
      {
        i := i + 1;
      }
      orderIndex := if i < |schema.columns| then i else -1;
    }

    method RowsUpTo(start: nat, end: int) returns (rows: seq<nat>)
      requires start <= end + 1
      ensures rows == Range(start, end + 1)
    {
      rows := [];
      for r := start to end + 1
        invariant rows == Range(start, r)
      {
        rows := rows + [r];
      }
    }

    method ComputeWindows(batch: Option<Table>, interval: int) returns (windows: seq<Window>)
      requires Valid() && (batch.Some? ==> Matches(schema, batch.value))
      ensures windows == if batch.None? then [] else WindowsOf(Timestamps(schema, batch.value), interval)
    {
      windows := [];
      if batch.None? || batch.value.rows == 0 || orderIndex < 0 {
        return;
      }
      var ts := Flattened(batch.value.columns[orderIndex].ints);
      windows := CutIntoWindows(ts, interval);
    }

    method CutIntoWindows(ts: seq<int>, interval: int) returns (windows: seq<Window>)
      requires ts != []
      ensures windows == WindowsOf(ts, interval)
    {
      windows := [];
      var start: nat := 0;
      var windowEnd := ts[0] + interval;
      for i := 0 to |ts|
        invariant start <= i && start < |ts| && windowEnd == ts[start] + interval
        invariant WindowsOf(ts, interval) == windows + WindowsFrom(ts, interval, start, i)
      {
        if ts[i] >= windowEnd {
          var rows := RowsUpTo(start, i - 1);
          windows := windows + [Window(start, i - 1, ts[start], windowEnd, rows, false)];
          start := i;
          windowEnd := ts[i] + interval;
        }
      }
      var rows := RowsUpTo(start, |ts| - 1);
      windows := windows + [Window(start, |ts| - 1, ts[start], windowEnd, rows, true)];
    }

    method ComputeAggregate(batch: Table, w: Window, c: AggregateConstraint) returns (r: AggregateResult)
      requires Matches(schema, batch)
      ensures r == Evaluated(schema, batch, w, c)
    {
      hide MinOf, MaxOf, SumOf, ValuesAt, NumbersOf, IndexOf, Length;
      if w.includedRows == [] {
        return EmptyWindow;
      }
      var index := ColumnIndex(schema, c.column);
      if index < 0 {
        return NoSuchColumn;
      }
      var values := ReadNumbers(batch.columns[index]);
      var picked := CollectValues(w, values);
      if picked == [] {
        return Value(0.0);
      }
      match c.function_
      case Avg =>
        var sum := KahanSum(picked);
        r := Value(sum / |picked| as real);
      case Sum =>
        var sum := KahanSum(picked);
        r := Value(sum);
      case Min =>
        var m := Least(picked);
        r := Value(m);
      case Max =>
        var m := Greatest(picked);
        r := Value(m);
      case Count =>
        r := Value(|picked| as real);
    }

    /** The values in the rows of the window; rows that the column does not have are passed over. */
    method CollectValues(w: Window, values: seq<real>) returns (picked: seq<real>)
      ensures picked == ValuesAt(w.includedRows, values)
    {
      picked := [];
      for i := 0 to |w.includedRows|
        invariant picked == ValuesAt(w.includedRows[..i], values)
      {
        assert w.includedRows[..i + 1][..i] == w.includedRows[..i];
        if w.includedRows[i] < |values| {
          picked := picked + [values[w.includedRows[i]]];
        }
      }
      assert w.includedRows[..|w.includedRows|] == w.includedRows;
    }

    method Least(v: seq<real>) returns (m: real)
      requires v != []
      ensures m == MinOf(v)
    {
      m := v[0];
      for i := 1 to |v|
        invariant m == MinOf(v[..i])
      {
        assert v[..i + 1][..i] == v[..i];
        if v[i] < m { m := v[i]; }
      }
      assert v[..|v|] == v;
    }

    method Greatest(v: seq<real>) returns (m: real)
      requires v != []
      ensures m == MaxOf(v)
    {
      m := v[0];
      for i := 1 to |v|
        invariant m == MaxOf(v[..i])
      {
        assert v[..i + 1][..i] == v[..i];
        if m < v[i] { m := v[i]; }
      }
      assert v[..|v|] == v;
    }

    method ReadNumbers(column: Column) returns (values: seq<real>)
      ensures values == NumbersOf(column)
    {
      match column
      case Doubles(chunks) => values := Flattened(chunks);
      case Floats(chunks) => values := Flattened(chunks);
      case Int64s(chunks) =>
        var ints := Flattened(chunks);
        values := [];
        for i := 0 to |ints|
          invariant values == AsReals(ints)[..i]
        {
          values := values + [ints[i] as real];
        }
      case OtherColumn(_) => values := [];
    }

    method ExecutePhaseTwo(batch: Option<Table>) returns (p: PhaseTwo)
      requires Valid() && (batch.Some? ==> Matches(schema, batch.value))
      ensures p == if batch.None? || batch.value.rows == 0 then PhaseTwo([], [], 0, 0)
                   else PhaseTwoOf(schema, batch.value, constraints)
    {
      p := PhaseTwo([], [], 0, 0);
      if batch.None? || batch.value.rows == 0 {
        return;
      }
      hide JudgedAll, WindowsOf, Matches;
      var t := batch.value;
      for i := 0 to |constraints|
        invariant p == PhaseTwoOf(schema, t, constraints[..i])
      {
        var c := constraints[i];
        assert constraints[..i + 1][..i] == constraints[..i];
        if c.interval > 0 {
          var ws := ComputeWindows(batch, c.interval);
          p := JudgeWindows(t, c, ws, p.(total := p.total + |ws|));
        }
      }
      assert constraints[..|constraints|] == constraints;
    }

    method JudgeWindows(t: Table, c: AggregateConstraint, ws: seq<Window>, before: PhaseTwo) returns (p: PhaseTwo)
      requires Matches(schema, t)
      ensures p == JudgedAll(before, schema, t, c, ws)
    {
      hide Evaluated, Matches;
      p := before;
      for k := 0 to |ws|
        invariant p == JudgedAll(before, schema, t, c, ws[..k])
      {
        assert ws[..k + 1][..k] == ws[..k];
        var r := ComputeAggregate(t, ws[k], c);
        if r.Value? {
          var violated := false;
          if c.minVal.Some? && r.value < c.minVal.value { violated := true; }
          if c.maxVal.Some? && r.value > c.maxVal.value { violated := true; }
          if violated {
            p := p.(violated := p.violated + 1, rates := p.rates + [ExclusionRate(c.name, 1.0, ws[k].isPartial)]);
          }
          p := p.(windows := p.windows + [ws[k]]);
        }
      }
      assert ws[..|ws|] == ws;
    }

    method Execute(batch: Option<Table>) returns (p: PhaseTwo, rate: real)
      requires Valid() && (batch.Some? ==> Matches(schema, batch.value))
      ensures p == if batch.None? || batch.value.rows == 0 then PhaseTwo([], [], 0, 0)
                   else PhaseTwoOf(schema, batch.value, constraints)
      ensures Bounded(p) && rate == TotalExclusionRate(p, if batch.Some? then batch.value.rows else 0)
      ensures p.total > 0 ==> 0.0 <= rate <= p.violated as real / p.total as real <= 1.0
    {
      hide Excluded, PhaseTwoOf, Matches;
      p := ExecutePhaseTwo(batch);
      if batch.Some? && batch.value.rows > 0 {
        PhaseTwoBounded(schema, batch.value, constraints);
      }
      var rows: nat := if batch.Some? then batch.value.rows else 0;
      var excluded := CountExcluded(p, rows);
      rate := if rows > 0 then excluded as real / rows as real else 0.0;
      if rows > 0 && p.total > 0 {
        ExclusionRateBound(p, rows);
      }
    }

    method CountExcluded(p: PhaseTwo, rows: nat) returns (excluded: int)
      requires Bounded(p)
      ensures excluded == Excluded(p, rows)
    {
      excluded := 0;
      FloorOfQuotient(rows, AtLeastOne(p.total));
      var share := (1.0 * rows as real / AtLeastOne(p.total) as real).Floor;
      for i := 0 to |p.rates|
        invariant excluded == i * share
      {
        excluded := excluded + (p.rates[i].rate * rows as real / AtLeastOne(p.total) as real).Floor;
      }
    }
  }
}
