/** The inter-row filter on values: a row is kept when it meets every constraint against the row
    kept before it, or against the state that came with the batch. A row is given by its values in
    the constrained columns, one per constraint. */
module InterRowFilter {
  import opened Common

  datatype Kind = DeltaMax | DeltaMin | MonotoneIncrease | MonotoneDecrease

  datatype Constraint = Constraint(column: string, kind: Kind, deltaMax: Option<real>, deltaMin: Option<real>)

  type Row = seq<real>
  type Previous = seq<Option<real>>

  function Abs(x: real): real { if x < 0.0 then -x else x }

  /** The deltas a constraint needs are given and positive. */
  predicate Usable(c: Constraint) {
    && (c.kind == DeltaMax ==> c.deltaMax.Some? && c.deltaMax.value > 0.0)
    && (c.kind == DeltaMin ==> c.deltaMin.Some? && c.deltaMin.value > 0.0)
  }

  predicate AllUsable(cs: seq<Constraint>) { forall k | 0 <= k < |cs| :: Usable(cs[k]) }

  predicate Check(c: Constraint, current: real, previous: real)
    requires Usable(c)
  {
    match c.kind
    case DeltaMax => Abs(current - previous) < c.deltaMax.value
    case DeltaMin => Abs(current - previous) > c.deltaMin.value
    case MonotoneIncrease => current > previous
    case MonotoneDecrease => current < previous
  }

  predicate Passes(cs: seq<Constraint>, prev: Previous, row: Row)
    requires AllUsable(cs) && |prev| == |row| == |cs|
  {
    forall k | 0 <= k < |cs| && prev[k].Some? :: Check(cs[k], row[k], prev[k].value)
  }

  function After(row: Row): (p: Previous)
    ensures |p| == |row|
  {
    seq(|row|, k requires 0 <= k < |row| => Some(row[k]))
  }

  predicate Fits(cs: seq<Constraint>, rows: seq<Row>) {
    forall i | 0 <= i < |rows| :: |rows[i]| == |cs|
  }

  /** The mask the greedy loop computes. */
  function Mask(cs: seq<Constraint>, prev: Previous, rows: seq<Row>): (mask: seq<bool>)
    requires AllUsable(cs) && |prev| == |cs| && Fits(cs, rows)
    ensures |mask| == |rows|
    decreases |rows|
  {
    if rows == [] then []
    else if Passes(cs, prev, rows[0]) then [true] + Mask(cs, After(rows[0]), rows[1..])
    else [false] + Mask(cs, prev, rows[1..])
  }

  function Selected<T>(rows: seq<T>, mask: seq<bool>): (s: seq<T>)
    requires |mask| == |rows|
    ensures |s| <= |rows|
  {
    if rows == [] then [] else (if mask[0] then [rows[0]] else []) + Selected(rows[1..], mask[1..])
  }

  function Kept(cs: seq<Constraint>, prev: Previous, rows: seq<Row>): seq<Row>
    requires AllUsable(cs) && |prev| == |cs| && Fits(cs, rows)
  {
    Selected(rows, Mask(cs, prev, rows))
  }

  // ---------------------------------------------------------------- the mask is the only greedy one

  /** What row `i` is compared with under `mask`: the last row kept before it, or the incoming state. */
  function Reference(prev: Previous, rows: seq<Row>, mask: seq<bool>, i: nat): Previous
    requires i <= |rows| == |mask|
  {
    if i == 0 then prev
    else if mask[i - 1] then After(rows[i - 1])
    else Reference(prev, rows, mask, i - 1)
  }

  lemma {:induction false} ReferenceFits(cs: seq<Constraint>, prev: Previous, rows: seq<Row>, mask: seq<bool>, i: nat)
    requires i <= |rows| == |mask| && Fits(cs, rows) && |prev| == |cs|
    ensures |Reference(prev, rows, mask, i)| == |cs|
  {
    if i > 0 {
      ReferenceFits(cs, prev, rows, mask, i - 1);
    }
  }

  /** A row is kept exactly when it meets all constraints against its reference. */
  ghost predicate Greedy(cs: seq<Constraint>, prev: Previous, rows: seq<Row>, mask: seq<bool>)
    requires AllUsable(cs) && |prev| == |cs| && Fits(cs, rows) && |mask| == |rows|
  {
    forall i | 0 <= i < |rows| ::
      && |Reference(prev, rows, mask, i)| == |cs|
      && (mask[i] <==> Passes(cs, Reference(prev, rows, mask, i), rows[i]))
  }

  lemma {:induction false} ReferenceShifts(prev: Previous, rows: seq<Row>, mask: seq<bool>, i: nat)
    requires 0 < i <= |rows| == |mask|
    ensures Reference(prev, rows, mask, i) ==
            Reference(if mask[0] then After(rows[0]) else prev, rows[1..], mask[1..], i - 1)
  {
    if i > 1 {
      ReferenceShifts(prev, rows, mask, i - 1);
    }
  }

  lemma {:induction false} MaskIsGreedy(cs: seq<Constraint>, prev: Previous, rows: seq<Row>)
    requires AllUsable(cs) && |prev| == |cs| && Fits(cs, rows)
    ensures Greedy(cs, prev, rows, Mask(cs, prev, rows))
    decreases |rows|
  {
    if rows != [] {
      var mask := Mask(cs, prev, rows);
      var next := if mask[0] then After(rows[0]) else prev;
      MaskIsGreedy(cs, next, rows[1..]);
      forall i | 0 <= i < |rows|
        ensures |Reference(prev, rows, mask, i)| == |cs|
        ensures mask[i] <==> Passes(cs, Reference(prev, rows, mask, i), rows[i])
      {
        if i > 0 { ReferenceShifts(prev, rows, mask, i); }
      }
    }
  }

  lemma {:induction false} GreedyAgree(cs: seq<Constraint>, prev: Previous, rows: seq<Row>,
                                       mask: seq<bool>, m: seq<bool>, i: nat)
    requires AllUsable(cs) && |prev| == |cs| && Fits(cs, rows) && |mask| == |m| == |rows| && i <= |rows|
    requires Greedy(cs, prev, rows, mask) && Greedy(cs, prev, rows, m)
    ensures mask[..i] == m[..i]
  {
    hide Reference, Passes;
    if i > 0 {
      GreedyAgree(cs, prev, rows, mask, m, i - 1);
      SameReference(prev, rows, mask, m, i - 1);
      assert mask[i - 1] == m[i - 1];
      assert mask[..i] == mask[..i - 1] + [mask[i - 1]] && m[..i] == m[..i - 1] + [m[i - 1]];
    }
  }

  /** The greedy mask is unique: the first row on which two masks differ has the same reference. */
  lemma GreedyIsUnique(cs: seq<Constraint>, prev: Previous, rows: seq<Row>, mask: seq<bool>)
    requires AllUsable(cs) && |prev| == |cs| && Fits(cs, rows) && |mask| == |rows|
    ensures Greedy(cs, prev, rows, mask) <==> mask == Mask(cs, prev, rows)
  {
    hide Greedy, Mask;
    MaskIsGreedy(cs, prev, rows);
    if Greedy(cs, prev, rows, mask) {
      var m := Mask(cs, prev, rows);
      GreedyAgree(cs, prev, rows, mask, m, |rows|);
      assert mask == mask[..|rows|] && m == m[..|rows|];
    }
  }

  lemma {:induction false} SameReference(prev: Previous, rows: seq<Row>, mask: seq<bool>, m: seq<bool>, i: nat)
    requires i <= |rows| == |mask| == |m| && mask[..i] == m[..i]
    ensures Reference(prev, rows, mask, i) == Reference(prev, rows, m, i)
  {
    if i > 0 {
      assert mask[..i][i - 1] == m[..i][i - 1];
      assert mask[..i - 1] == mask[..i][..i - 1] && m[..i - 1] == m[..i][..i - 1];
      SameReference(prev, rows, mask, m, i - 1);
    }
  }

  // ---------------------------------------------------------------- which rows are kept

  /** Row `i` is compared with `p` in column `k`: the value of the last row kept before it or, when
      none was, the value that came with the batch. */
  ghost predicate ComparedWith(prev: Previous, rows: seq<Row>, mask: seq<bool>, i: nat, k: nat, p: real)
    requires i <= |rows| == |mask| && k < |prev|
  {
    || (exists j: nat :: j < i && mask[j] && (forall m | j < m < i :: !mask[m]) && k < |rows[j]| && rows[j][k] == p)
    || ((forall m | 0 <= m < i :: !mask[m]) && prev[k] == Some(p))
  }

  lemma {:induction false} ReferenceIsLastKept(prev: Previous, rows: seq<Row>, mask: seq<bool>, i: nat, k: nat, p: real)
    requires i <= |rows| == |mask| && k < |prev| && forall j | 0 <= j < |rows| :: |rows[j]| == |prev|
    ensures |Reference(prev, rows, mask, i)| == |prev|
    ensures Reference(prev, rows, mask, i)[k] == Some(p) <==> ComparedWith(prev, rows, mask, i, k, p)
  {
    if i > 0 {
      ReferenceIsLastKept(prev, rows, mask, i - 1, k, p);
      if mask[i - 1] {
        assert After(rows[i - 1])[k] == Some(rows[i - 1][k]);
        if ComparedWith(prev, rows, mask, i, k, p) {
          var j: nat :| j < i && mask[j] && (forall m | j < m < i :: !mask[m]) && rows[j][k] == p;
          assert j == i - 1;
        }
      } else {
        if ComparedWith(prev, rows, mask, i - 1, k, p) { assert ComparedWith(prev, rows, mask, i, k, p); }
        if ComparedWith(prev, rows, mask, i, k, p) { assert ComparedWith(prev, rows, mask, i - 1, k, p); }
      }
    }
  }

  /** What each constraint asks of a value `x` that is compared with `p`. */
  predicate Obeys(c: Constraint, x: real, p: real)
    requires Usable(c)
  {
    && (c.kind == MonotoneIncrease ==> x > p)
    && (c.kind == MonotoneDecrease ==> x < p)
    && (c.kind == DeltaMax ==> p - c.deltaMax.value < x < p + c.deltaMax.value)
    && (c.kind == DeltaMin ==> x < p - c.deltaMin.value || x > p + c.deltaMin.value)
  }

  /** A row is kept exactly when, against every value it is compared with, it is greater under an
      increasing constraint, less under a decreasing one, within a largest delta and beyond a smallest
      one; so every row dropped fails one of these comparisons. */
  lemma KeptExactly(cs: seq<Constraint>, prev: Previous, rows: seq<Row>, i: nat)
    requires AllUsable(cs) && |prev| == |cs| && Fits(cs, rows) && i < |rows|
    ensures var mask := Mask(cs, prev, rows);
            mask[i] <==>
            forall k: nat, p | k < |cs| && ComparedWith(prev, rows, mask, i, k, p) :: Obeys(cs[k], rows[i][k], p)
  {
    hide Mask, ComparedWith, Reference;
    var mask := Mask(cs, prev, rows);
    MaskIsGreedy(cs, prev, rows);
    var r := Reference(prev, rows, mask, i);
    assert |r| == |cs| && (mask[i] <==> Passes(cs, r, rows[i]));
    forall k: nat, p | k < |cs| ensures r[k] == Some(p) <==> ComparedWith(prev, rows, mask, i, k, p) {
      ReferenceIsLastKept(prev, rows, mask, i, k, p);
    }
    forall k | 0 <= k < |cs| && r[k].Some? ensures ComparedWith(prev, rows, mask, i, k, r[k].value) {
    }
  }

  /** Rows that already obey, each against the one before it and the first against the incoming
      state, are all kept. */
  lemma {:induction false} ObeyingRowsAreKept(cs: seq<Constraint>, prev: Previous, rows: seq<Row>)
    requires AllUsable(cs) && |prev| == |cs| && Fits(cs, rows)
    requires rows != [] ==> forall k | 0 <= k < |cs| && prev[k].Some? :: Obeys(cs[k], rows[0][k], prev[k].value)
    requires forall i, k | 1 <= i < |rows| && 0 <= k < |cs| :: Obeys(cs[k], rows[i][k], rows[i - 1][k])
    ensures Kept(cs, prev, rows) == rows
    decreases |rows|
  {
    if rows != [] {
      var next, rest := After(rows[0]), rows[1..];
      assert Passes(cs, prev, rows[0]);
      hide Passes, Kept;
      KeptCons(cs, prev, rows);
      assert forall i | 0 <= i < |rest| :: rest[i] == rows[i + 1];
      ObeyingRowsAreKept(cs, next, rest);
    } else {
      NothingKept(cs, prev);
    }
  }

  // ---------------------------------------------------------------- kept rows

  /** Each row passes against the one before it, the first against `prev`. */
  predicate Chained(cs: seq<Constraint>, prev: Previous, kept: seq<Row>)
    requires AllUsable(cs) && |prev| == |cs|
    decreases |kept|
  {
    kept != [] ==> |kept[0]| == |cs| && Passes(cs, prev, kept[0]) && Chained(cs, After(kept[0]), kept[1..])
  }

  lemma {:induction false} KeptIsChained(cs: seq<Constraint>, prev: Previous, rows: seq<Row>)
    requires AllUsable(cs) && |prev| == |cs| && Fits(cs, rows)
    ensures Chained(cs, prev, Kept(cs, prev, rows)) && Fits(cs, Kept(cs, prev, rows))
    decreases |rows|
  {
    if rows != [] {
      var mask := Mask(cs, prev, rows);
      var next := if mask[0] then After(rows[0]) else prev;
      KeptIsChained(cs, next, rows[1..]);
      var rest := Kept(cs, next, rows[1..]);
      assert mask[1..] == Mask(cs, next, rows[1..]);
      if mask[0] { assert ([rows[0]] + rest)[1..] == rest; } else { assert [] + rest == rest; }
    }
  }

  lemma {:induction false} ChainedKeepsAll(cs: seq<Constraint>, prev: Previous, kept: seq<Row>)
    requires AllUsable(cs) && |prev| == |cs| && Fits(cs, kept) && Chained(cs, prev, kept)
    ensures Kept(cs, prev, kept) == kept
    decreases |kept|
  {
    hide Passes, After;
    if kept != [] {
      var rest := Mask(cs, After(kept[0]), kept[1..]);
      ChainedKeepsAll(cs, After(kept[0]), kept[1..]);
      assert Mask(cs, prev, kept) == [true] + rest;
      assert ([true] + rest)[1..] == rest;
    }
  }

  /** Filtering what was kept, from the same state, keeps all of it. */
  lemma FilterIsIdempotent(cs: seq<Constraint>, prev: Previous, rows: seq<Row>)
    requires AllUsable(cs) && |prev| == |cs| && Fits(cs, rows)
    ensures Fits(cs, Kept(cs, prev, rows))
    ensures Kept(cs, prev, Kept(cs, prev, rows)) == Kept(cs, prev, rows)
  {
    KeptIsChained(cs, prev, rows);
    ChainedKeepsAll(cs, prev, Kept(cs, prev, rows));
  }

  lemma {:induction false} ChainedNeighbours(cs: seq<Constraint>, prev: Previous, kept: seq<Row>, i: nat, k: nat)
    requires AllUsable(cs) && |prev| == |cs| && Fits(cs, kept) && Chained(cs, prev, kept)
    requires i + 1 < |kept| && k < |cs|
    ensures Check(cs[k], kept[i + 1][k], kept[i][k])
    decreases i
  {
    if i > 0 {
      ChainedNeighbours(cs, After(kept[0]), kept[1..], i - 1, k);
    } else {
      var next := kept[1..];
      assert Passes(cs, After(kept[0]), next[0]);
      assert After(kept[0])[k] == Some(kept[0][k]);
    }
  }

  lemma {:induction false} MonotoneAcross(cs: seq<Constraint>, prev: Previous, kept: seq<Row>, i: nat, j: nat, k: nat)
    requires AllUsable(cs) && |prev| == |cs| && Fits(cs, kept) && Chained(cs, prev, kept)
    requires i < j < |kept| && k < |cs|
    ensures cs[k].kind == MonotoneIncrease ==> kept[i][k] < kept[j][k]
    ensures cs[k].kind == MonotoneDecrease ==> kept[i][k] > kept[j][k]
    decreases j - i
  {
    ChainedNeighbours(cs, prev, kept, j - 1, k);
    if i < j - 1 {
      MonotoneAcross(cs, prev, kept, i, j - 1, k);
    }
  }

  /** Any two kept rows, not only neighbours, obey a monotone constraint; under a largest delta the
      drift between them is less than their distance times the delta; under a smallest delta
      neighbours are further apart than it. */
  lemma {:induction false} KeptRowsObey(cs: seq<Constraint>, prev: Previous, rows: seq<Row>, i: nat, j: nat, k: nat)
    requires AllUsable(cs) && |prev| == |cs| && Fits(cs, rows)
    requires i < j < |Kept(cs, prev, rows)| && k < |cs| && Fits(cs, Kept(cs, prev, rows))
    ensures var (a, b) := (Kept(cs, prev, rows)[i][k], Kept(cs, prev, rows)[j][k]);
            match cs[k].kind
            case MonotoneIncrease => a < b
            case MonotoneDecrease => a > b
            case DeltaMax => Abs(b - a) < Times(j - i, cs[k].deltaMax.value)
            case DeltaMin => j == i + 1 ==> Abs(b - a) > cs[k].deltaMin.value
  {
    var kept := Kept(cs, prev, rows);
    KeptIsChained(cs, prev, rows);
    MonotoneAcross(cs, prev, kept, i, j, k);
    ChainedNeighbours(cs, prev, kept, i, k);
    if cs[k].kind == DeltaMax {
      DriftAcross(cs, prev, kept, i, j, k);
    }
  }

  lemma {:induction false} DriftAcross(cs: seq<Constraint>, prev: Previous, kept: seq<Row>, i: nat, j: nat, k: nat)
    requires AllUsable(cs) && |prev| == |cs| && Fits(cs, kept) && Chained(cs, prev, kept)
    requires i < j < |kept| && k < |cs| && cs[k].kind == DeltaMax
    ensures Abs(kept[j][k] - kept[i][k]) < Times(j - i, cs[k].deltaMax.value)
    decreases j - i
  {
    hide Times;
    var delta := cs[k].deltaMax.value;
    ChainedNeighbours(cs, prev, kept, j - 1, k);
    OneMore(j - 1 - i, delta);
    if i < j - 1 {
      DriftAcross(cs, prev, kept, i, j - 1, k);
    }
  }

  function Times(n: nat, delta: real): real { n as real * delta }

  lemma OneMore(n: nat, delta: real)
    ensures Times(n + 1, delta) == Times(n, delta) + delta
    ensures n == 0 ==> Times(n, delta) == 0.0
  {
    assert (n + 1) as real == n as real + 1.0;
  }

  // ---------------------------------------------------------------- batches

  datatype State = State(column: string, lastValue: Option<real>, initialized: bool)

  /** The value the last initialised state of `column` carries. */
  function Lookup(states: seq<State>, column: string): Option<real>
    decreases |states|
  {
    if states == [] then None
    else
      var last := states[|states| - 1];
      if last.column == column && last.initialized && last.lastValue.Some? then last.lastValue
      else Lookup(states[..|states| - 1], column)
  }

  /** The state at position `i` carries this value for the column. */
  predicate CarriesAt(states: seq<State>, i: nat, column: string, value: real)
    requires i < |states|
  {
    states[i].column == column && states[i].initialized && states[i].lastValue == Some(value)
  }

  /** It is the last state of the column that carries a value. */
  ghost predicate LastCarrier(states: seq<State>, i: nat, column: string, value: real) {
    i < |states| && CarriesAt(states, i, column, value) && forall j: nat, x | i < j < |states| :: !CarriesAt(states, j, column, x)
  }

  /** Of several initialised states of a column the last one counts; without one there is none. */
  lemma {:induction false} LastStateCounts(states: seq<State>, column: string, value: real)
    ensures Lookup(states, column) == Some(value) <==> exists i: nat :: LastCarrier(states, i, column, value)
    decreases |states|
  {
    if states != [] {
      var n := |states| - 1;
      var front, last := states[..n], states[n];
      LastStateCounts(front, column, value);
      if last.column == column && last.initialized && last.lastValue.Some? {
        assert CarriesAt(states, n, column, last.lastValue.value);
        assert LastCarrier(states, n, column, value) <==> last.lastValue.value == value;
      } else {
        assert forall x :: !CarriesAt(states, n, column, x);
        forall i: nat ensures LastCarrier(front, i, column, value) <==> LastCarrier(states, i, column, value) {
          assert forall j: nat, x | j < n :: CarriesAt(front, j, column, x) <==> CarriesAt(states, j, column, x);
        }
      }
    }
  }

  function Incoming(cs: seq<Constraint>, states: seq<State>): (p: Previous)
    ensures |p| == |cs|
  {
    seq(|cs|, k requires 0 <= k < |cs| => Lookup(states, cs[k].column))
  }

  /** The states handed to the next batch: those of the last row kept, or empty ones. */
  function Outgoing(cs: seq<Constraint>, kept: seq<Row>): (states: seq<State>)
    requires Fits(cs, kept)
    ensures |states| == |cs|
  {
    seq(|cs|, k requires 0 <= k < |cs| =>
      if kept == [] then State(cs[k].column, None, false)
      else State(cs[k].column, Some(kept[|kept| - 1][k]), true))
  }

  datatype Result = Result(kept: seq<Row>, states: seq<State>, passed: nat, filtered: nat)

  function Execute(cs: seq<Constraint>, rows: seq<Row>, states: seq<State>): (r: Result)
    requires AllUsable(cs) && Fits(cs, rows)
    ensures Fits(cs, r.kept) && r.states == Outgoing(cs, r.kept)
  {
    var kept := Kept(cs, Incoming(cs, states), rows);
    KeptIsChained(cs, Incoming(cs, states), rows);
    Result(kept, Outgoing(cs, kept), |kept|, |rows| - |kept|)
  }

  /** One batch after the other, each given the states the one before it returned. */
  function ExecuteAll(cs: seq<Constraint>, batches: seq<seq<Row>>, states: seq<State>): Result
    requires AllUsable(cs) && forall i | 0 <= i < |batches| :: Fits(cs, batches[i])
    decreases |batches|
  {
    if batches == [] then Result([], states, 0, 0)
    else
      var first := Execute(cs, batches[0], states);
      var rest := ExecuteAll(cs, batches[1..], first.states);
      Result(first.kept + rest.kept, rest.states, first.passed + rest.passed, first.filtered + rest.filtered)
  }

  function Flatten<T>(batches: seq<seq<T>>): seq<T> {
    if batches == [] then [] else batches[0] + Flatten(batches[1..])
  }

  /** Constraints on the same column see the same value in a row. */
  predicate Consistent(cs: seq<Constraint>, rows: seq<Row>)
    requires Fits(cs, rows)
  {
    forall i, k, k' | 0 <= i < |rows| && 0 <= k < |cs| && 0 <= k' < |cs| && cs[k].column == cs[k'].column ::
      rows[i][k] == rows[i][k']
  }

  /** What the rows after `rows` are compared with. */
  function Final(prev: Previous, kept: seq<Row>): Previous {
    if kept == [] then prev else After(kept[|kept| - 1])
  }

  lemma {:induction false} KeptSplits(cs: seq<Constraint>, prev: Previous, a: seq<Row>, b: seq<Row>)
    requires AllUsable(cs) && |prev| == |cs| && Fits(cs, a) && Fits(cs, b)
    ensures Fits(cs, a + b) && Fits(cs, Kept(cs, prev, a)) && |Final(prev, Kept(cs, prev, a))| == |cs|
    ensures Kept(cs, prev, a + b) == Kept(cs, prev, a) + Kept(cs, Final(prev, Kept(cs, prev, a)), b)
    decreases |a|
  {
    hide Passes, Chained, After, Kept, Final;
    KeptIsChained(cs, prev, a);
    FinalFits(cs, prev, Kept(cs, prev, a));
    if a == [] {
      assert a + b == b;
      NothingKept(cs, prev);
      assert [] + Kept(cs, prev, b) == Kept(cs, prev, b);
    } else {
      assert (a + b)[1..] == a[1..] + b && (a + b)[0] == a[0];
      KeptCons(cs, prev, a);
      KeptCons(cs, prev, a + b);
      if Passes(cs, prev, a[0]) {
        KeptSplits(cs, After(a[0]), a[1..], b);
        var rest := Kept(cs, After(a[0]), a[1..]);
        FinalCons(prev, a[0], rest);
        Join([a[0]], rest, Kept(cs, Final(After(a[0]), rest), b));
      } else {
        KeptSplits(cs, prev, a[1..], b);
      }
    }
  }

  lemma NothingKept(cs: seq<Constraint>, prev: Previous)
    requires AllUsable(cs) && |prev| == |cs|
    ensures Kept(cs, prev, []) == [] && Final(prev, []) == prev
  {
  }

  lemma FinalFits(cs: seq<Constraint>, prev: Previous, kept: seq<Row>)
    requires |prev| == |cs| && Fits(cs, kept)
    ensures |Final(prev, kept)| == |cs|
  {
  }

  lemma FinalCons(prev: Previous, row: Row, rest: seq<Row>)
    ensures Final(prev, [row] + rest) == Final(After(row), rest)
  {
  }

  lemma Join(a: seq<Row>, b: seq<Row>, c: seq<Row>)
    ensures a + (b + c) == (a + b) + c
  {
  }

  lemma KeptCons(cs: seq<Constraint>, prev: Previous, rows: seq<Row>)
    requires AllUsable(cs) && |prev| == |cs| && Fits(cs, rows) && rows != []
    ensures Kept(cs, prev, rows) ==
            if Passes(cs, prev, rows[0]) then [rows[0]] + Kept(cs, After(rows[0]), rows[1..])
            else Kept(cs, prev, rows[1..])
  {
    hide Passes, After;
    var next := if Passes(cs, prev, rows[0]) then After(rows[0]) else prev;
    assert Mask(cs, prev, rows)[1..] == Mask(cs, next, rows[1..]);
    assert [] + Kept(cs, next, rows[1..]) == Kept(cs, next, rows[1..]);
  }

  lemma {:induction false} LookupOutgoing(cs: seq<Constraint>, states: seq<State>, row: Row, n: nat, k: nat)
    requires k < n <= |cs| == |states| == |row|
    requires forall i | 0 <= i < |cs| :: states[i] == State(cs[i].column, Some(row[i]), true)
    requires forall k, k' | 0 <= k < |cs| && 0 <= k' < |cs| && cs[k].column == cs[k'].column :: row[k] == row[k']
    ensures Lookup(states[..n], cs[k].column) == Some(row[k])
    decreases n
  {
    if cs[n - 1].column != cs[k].column {
      assert states[..n][..n - 1] == states[..n - 1];
      LookupOutgoing(cs, states, row, n - 1, k);
    }
  }

  lemma {:induction false} LookupEmpty(states: seq<State>, column: string)
    requires forall i | 0 <= i < |states| :: !states[i].initialized
    ensures Lookup(states, column) == None
    decreases |states|
  {
    if states != [] {
      LookupEmpty(states[..|states| - 1], column);
    }
  }

  /** The states of a batch that kept a row carry exactly that row on; a batch that kept none
      carries nothing on, not even the state it was given. */
  lemma HandsOver(cs: seq<Constraint>, kept: seq<Row>)
    requires Fits(cs, kept) && Consistent(cs, kept)
    ensures Incoming(cs, Outgoing(cs, kept)) == Final(seq(|cs|, _ => None), kept)
  {
    var states := Outgoing(cs, kept);
    forall k | 0 <= k < |cs|
      ensures Lookup(states, cs[k].column) == if kept == [] then None else Some(kept[|kept| - 1][k])
    {
      if kept == [] {
        LookupEmpty(states, cs[k].column);
      } else {
        LookupOutgoing(cs, states, kept[|kept| - 1], |cs|, k);
        assert states[..|cs|] == states;
      }
    }
    assert Incoming(cs, states) == Final(seq(|cs|, _ => None), kept);
  }

  lemma ExecuteMore(cs: seq<Constraint>, a: seq<Row>, b: seq<Row>, states: seq<State>)
    requires AllUsable(cs) && Fits(cs, a) && Fits(cs, b) && Consistent(cs, a)
    requires Execute(cs, a, states).kept != []
    ensures Fits(cs, a + b)
    ensures var first := Execute(cs, a, states); var second := Execute(cs, b, first.states);
            var whole := Execute(cs, a + b, states);
            && whole.kept == first.kept + second.kept
            && whole.passed == first.passed + second.passed && whole.filtered == first.filtered + second.filtered
            && (second.kept != [] ==> whole.states == second.states)
            && (second.kept == [] ==> whole.states == first.states)
  {
    var prev := Incoming(cs, states);
    var kept := Kept(cs, prev, a);
    KeptSplits(cs, prev, a, b);
    SelectedConsistent(cs, a, Mask(cs, prev, a));
    HandsOver(cs, kept);
    var second := Kept(cs, After(kept[|kept| - 1]), b);
    KeptIsChained(cs, After(kept[|kept| - 1]), b);
    assert (kept + second)[|kept + second| - 1] == if second == [] then kept[|kept| - 1] else second[|second| - 1];
    assert kept + [] == kept;
  }

  lemma {:induction false} SelectedConsistent(cs: seq<Constraint>, rows: seq<Row>, mask: seq<bool>)
    requires Fits(cs, rows) && Consistent(cs, rows) && |mask| == |rows|
    ensures Fits(cs, Selected(rows, mask)) && Consistent(cs, Selected(rows, mask))
  {
    if rows != [] {
      SelectedConsistent(cs, rows[1..], mask[1..]);
    }
  }

  /** Some row passes against this state. */
  predicate AnyPasses(cs: seq<Constraint>, prev: Previous, rows: seq<Row>)
    requires |prev| == |cs| && AllUsable(cs) && Fits(cs, rows)
  {
    exists i :: 0 <= i < |rows| && Passes(cs, prev, rows[i])
  }

  /** A batch keeps a row exactly when some row of it passes against the state it starts from. */
  lemma {:induction false} KeepsWhenAnyPasses(cs: seq<Constraint>, prev: Previous, rows: seq<Row>)
    requires AllUsable(cs) && |prev| == |cs| && Fits(cs, rows)
    ensures Kept(cs, prev, rows) != [] <==> AnyPasses(cs, prev, rows)
    decreases |rows|
  {
    hide Kept, Passes;
    if rows == [] {
      NothingKept(cs, prev);
    } else {
      KeptCons(cs, prev, rows);
      if !Passes(cs, prev, rows[0]) {
        KeepsWhenAnyPasses(cs, prev, rows[1..]);
        if AnyPasses(cs, prev, rows) {
          var i :| 0 <= i < |rows| && Passes(cs, prev, rows[i]);
          assert rows[i] == rows[1..][i - 1];
        }
        if AnyPasses(cs, prev, rows[1..]) {
          var i :| 0 <= i < |rows[1..]| && Passes(cs, prev, rows[1..][i]);
          assert rows[1..][i] == rows[i + 1];
        }
      }
    }
  }

  /** The second batch gets the state it needs: some row of the first passes against the incoming
      state, and some row of the second against the last row that the first keeps; or no row of the
      first passes, and the second is empty or starts with a row that does. */
  predicate StateCarries(cs: seq<Constraint>, a: seq<Row>, b: seq<Row>, states: seq<State>)
    requires AllUsable(cs) && Fits(cs, a) && Fits(cs, b)
  {
    var prev := Incoming(cs, states);
    if AnyPasses(cs, prev, a) then
      KeptIsChained(cs, prev, a);
      FinalFits(cs, prev, Kept(cs, prev, a));
      AnyPasses(cs, Final(prev, Kept(cs, prev, a)), b)
    else b == [] || Passes(cs, prev, b[0])
  }

  /** When the first batch keeps nothing its state is lost, so the second keeps its first row. */
  lemma DropsState(cs: seq<Constraint>, a: seq<Row>, b: seq<Row>, states: seq<State>)
    requires AllUsable(cs) && Fits(cs, a) && Fits(cs, b) && Execute(cs, a, states).kept == []
    ensures Fits(cs, a + b)
    ensures var second := Execute(cs, b, Execute(cs, a, states).states); var whole := Execute(cs, a + b, states);
            && whole.kept == Kept(cs, Incoming(cs, states), b)
            && second.kept == Kept(cs, seq(|cs|, _ => None), b)
            && second.states == Outgoing(cs, second.kept) && whole.states == Outgoing(cs, whole.kept)
            && whole.passed + whole.filtered == |a| + |b| && second.passed + second.filtered == |b|
  {
    var prev := Incoming(cs, states);
    KeptSplits(cs, prev, a, b);
    HandsOver(cs, []);
    assert [] + Kept(cs, prev, b) == Kept(cs, prev, b);
  }

  lemma FirstRowDecides(cs: seq<Constraint>, prev: Previous, b: seq<Row>)
    requires AllUsable(cs) && |prev| == |cs| && Fits(cs, b) && b != []
    ensures Kept(cs, prev, b) == Kept(cs, seq(|cs|, _ => None), b) <==> Passes(cs, prev, b[0])
  {
    var none := seq(|cs|, _ => None);
    KeptCons(cs, prev, b);
    KeptCons(cs, none, b);
    assert Passes(cs, none, b[0]);
    KeptIsChained(cs, prev, b);
    if Kept(cs, prev, b) == Kept(cs, none, b) {
      assert Kept(cs, prev, b)[0] == b[0];
    }
  }

  lemma CarriesByKeeping(cs: seq<Constraint>, a: seq<Row>, b: seq<Row>, states: seq<State>)
    requires AllUsable(cs) && Fits(cs, a) && Fits(cs, b) && Consistent(cs, a)
    ensures var first := Execute(cs, a, states);
            StateCarries(cs, a, b, states) <==>
            if first.kept != [] then Execute(cs, b, first.states).kept != []
            else b == [] || Passes(cs, Incoming(cs, states), b[0])
  {
    hide Passes, AnyPasses;
    var prev := Incoming(cs, states);
    var first := Execute(cs, a, states);
    KeepsWhenAnyPasses(cs, prev, a);
    if first.kept != [] {
      SelectedConsistent(cs, a, Mask(cs, prev, a));
      KeptIsChained(cs, prev, a);
      HandsOver(cs, first.kept);
      FinalFits(cs, prev, first.kept);
      assert Final(prev, first.kept) == Final(seq(|cs|, _ => None), first.kept);
      KeepsWhenAnyPasses(cs, Incoming(cs, first.states), b);
    }
  }

  /** Running two batches one after the other gives the rows, counters and states of one run over
      both exactly when the state carries over (or there is no constraint). */
  lemma TwoBatches(cs: seq<Constraint>, a: seq<Row>, b: seq<Row>, states: seq<State>)
    requires AllUsable(cs) && Fits(cs, a) && Fits(cs, b) && Consistent(cs, a)
    ensures Fits(cs, a + b)
    ensures var first := Execute(cs, a, states); var second := Execute(cs, b, first.states);
            Execute(cs, a + b, states) == Result(first.kept + second.kept, second.states,
                                                 first.passed + second.passed, first.filtered + second.filtered)
            <==> cs == [] || StateCarries(cs, a, b, states)
  {
    hide Kept, Passes, AnyPasses;
    var first := Execute(cs, a, states);
    var second := Execute(cs, b, first.states);
    var whole := Execute(cs, a + b, states);
    CarriesByKeeping(cs, a, b, states);
    if first.kept != [] {
      ExecuteMore(cs, a, b, states);
      if cs != [] && second.kept == [] {
        assert first.states[0] != second.states[0];
      }
      if cs == [] {
        assert first.states == second.states == [];
      }
    } else {
      DropsState(cs, a, b, states);
      assert [] + second.kept == second.kept;
      if b != [] {
        FirstRowDecides(cs, Incoming(cs, states), b);
        if cs == [] { assert Incoming(cs, states) == seq(|cs|, _ => None); assert Passes(cs, Incoming(cs, states), b[0]); }
      } else {
        NothingKept(cs, Incoming(cs, states));
        NothingKept(cs, seq(|cs|, _ => None));
      }
    }
  }

  lemma {:induction false} FlattenFits(cs: seq<Constraint>, batches: seq<seq<Row>>)
    requires forall i | 0 <= i < |batches| :: Fits(cs, batches[i]) && Consistent(cs, batches[i])
    ensures Fits(cs, Flatten(batches)) && Consistent(cs, Flatten(batches))
  {
    if batches != [] {
      FlattenFits(cs, batches[1..]);
    }
  }

  // ---------------------------------------------------------------- any number of batches

  function Nothing(cs: seq<Constraint>): Previous { seq(|cs|, _ => None) }

  /** One run over all rows would compare the next row with `prev`; `lost` says that the batch
      before kept nothing, so that the next one is given no state, and `any` that a row was kept.
      The first row after a lost state must pass all the same, and the state must not be lost at the
      end, unless there was none. */
  predicate AllCarry(cs: seq<Constraint>, prev: Previous, lost: bool, any: bool, batches: seq<seq<Row>>)
    requires |prev| == |cs| && AllUsable(cs) && forall i | 0 <= i < |batches| :: Fits(cs, batches[i])
    decreases |batches|
  {
    if batches == [] then !lost || !any
    else
      var b := batches[0];
      if !AnyPasses(cs, if lost then Nothing(cs) else prev, b) then AllCarry(cs, prev, true, any, batches[1..])
      else
        KeptIsChained(cs, prev, b);
        FinalFits(cs, prev, Kept(cs, prev, b));
        (lost ==> Passes(cs, prev, b[0])) && AllCarry(cs, Final(prev, Kept(cs, prev, b)), false, true, batches[1..])
  }

  function LastKept(cs: seq<Constraint>, batches: seq<seq<Row>>, states: seq<State>): seq<Row>
    requires batches != [] && AllUsable(cs) && forall i | 0 <= i < |batches| :: Fits(cs, batches[i])
    decreases |batches|
  {
    var first := Execute(cs, batches[0], states);
    if |batches| == 1 then first.kept else LastKept(cs, batches[1..], first.states)
  }

  /** The state at the end is that of the last row kept. */
  predicate EndsAlike(cs: seq<Constraint>, batches: seq<seq<Row>>, states: seq<State>, lost: bool, any: bool)
    requires AllUsable(cs) && forall i | 0 <= i < |batches| :: Fits(cs, batches[i])
  {
    if batches == [] then !lost || !any
    else LastKept(cs, batches, states) != [] || (ExecuteAll(cs, batches, states).kept == [] && !any)
  }

  /** The batch starts from the state that one run would have, or from none. */
  predicate StartsAlike(cs: seq<Constraint>, prev: Previous, lost: bool, states: seq<State>) {
    Incoming(cs, states) == if lost then Nothing(cs) else prev
  }

  /** What a batch that keeps a row hands on. */
  lemma KeepingBatch(cs: seq<Constraint>, b: seq<Row>, states: seq<State>)
    requires AllUsable(cs) && Fits(cs, b) && Consistent(cs, b)
    ensures var first := Execute(cs, b, states);
            Incoming(cs, first.states) == Final(Nothing(cs), first.kept)
  {
    var first := Execute(cs, b, states);
    SelectedConsistent(cs, b, Mask(cs, Incoming(cs, states), b));
    HandsOver(cs, first.kept);
  }

  /** A batch without a state keeps what one run keeps exactly when its first row passes. */
  lemma FreshBatch(cs: seq<Constraint>, prev: Previous, b: seq<Row>, rest: seq<Row>, more: seq<Row>)
    requires AllUsable(cs) && |prev| == |cs| && Fits(cs, b) && Fits(cs, rest) && b != []
    ensures Kept(cs, Nothing(cs), b) != [] && AnyPasses(cs, Nothing(cs), b)
    ensures Passes(cs, prev, b[0]) ==> Kept(cs, Nothing(cs), b) == Kept(cs, prev, b)
    ensures !Passes(cs, prev, b[0]) ==> Fits(cs, b + rest) && Kept(cs, Nothing(cs), b) + more != Kept(cs, prev, b + rest)
  {
    assert Passes(cs, Nothing(cs), b[0]);
    KeepsWhenAnyPasses(cs, Nothing(cs), b);
    FirstRowDecides(cs, prev, b);
    KeptCons(cs, Nothing(cs), b);
    if !Passes(cs, prev, b[0]) {
      var whole := Kept(cs, prev, b + rest);
      KeptIsChained(cs, prev, b + rest);
      assert (Kept(cs, Nothing(cs), b) + more)[0] == b[0];
      if whole != [] { assert Passes(cs, prev, whole[0]); }
    }
  }

  /** The rows and the last state of the batches are those of one run exactly when all states carry. */
  lemma {:induction false} CarryingAgrees(cs: seq<Constraint>, prev: Previous, lost: bool, any: bool,
                                          batches: seq<seq<Row>>, states: seq<State>)
    requires AllUsable(cs) && |prev| == |cs| && StartsAlike(cs, prev, lost, states)
    requires forall i | 0 <= i < |batches| :: Fits(cs, batches[i]) && Consistent(cs, batches[i])
    ensures Fits(cs, Flatten(batches))
    ensures AllCarry(cs, prev, lost, any, batches) <==>
            && ExecuteAll(cs, batches, states).kept == Kept(cs, prev, Flatten(batches))
            && EndsAlike(cs, batches, states, lost, any)
    decreases |batches|
  {
    hide Kept, Passes, AnyPasses, Execute, Incoming, Final, Consistent;
    FlattenFits(cs, batches);
    if batches == [] {
      NothingKept(cs, prev);
    } else {
      var b, more := batches[0], batches[1..];
      var start := if lost then Nothing(cs) else prev;
      var first := Execute(cs, b, states);
      assert first.kept == Kept(cs, start, b) by { KeptBy(cs, b, states); }
      FlattenFits(cs, more);
      KeepsWhenAnyPasses(cs, start, b);
      KeepingBatch(cs, b, states);
      KeptSplits(cs, prev, b, Flatten(more));
      if b == [] { NothingKept(cs, prev); NothingKept(cs, start); } else { FreshBatch(cs, prev, b, Flatten(more), ExecuteAll(cs, more, first.states).kept); }
      FinalOf(cs, prev, first.kept);
      if first.kept == [] {
        CarryingAgrees(cs, prev, true, any, more, first.states);
        assert [] + ExecuteAll(cs, more, first.states).kept == ExecuteAll(cs, more, first.states).kept;
        assert [] + Kept(cs, prev, Flatten(more)) == Kept(cs, prev, Flatten(more));
      } else if !lost || Passes(cs, prev, b[0]) {
        CarryingAgrees(cs, Final(prev, first.kept), false, true, more, first.states);
        SameRest(first.kept, ExecuteAll(cs, more, first.states).kept, Kept(cs, Final(prev, first.kept), Flatten(more)));
      }
    }
  }

  lemma SameRest(a: seq<Row>, x: seq<Row>, y: seq<Row>)
    ensures a + x == a + y <==> x == y
  {
    assert (a + x)[|a|..] == x && (a + y)[|a|..] == y;
  }

  lemma KeptBy(cs: seq<Constraint>, rows: seq<Row>, states: seq<State>)
    requires AllUsable(cs) && Fits(cs, rows)
    ensures var r := Execute(cs, rows, states);
            r.kept == Kept(cs, Incoming(cs, states), rows) && r.passed == |r.kept| && r.passed + r.filtered == |rows|
  {
  }

  lemma FinalOf(cs: seq<Constraint>, prev: Previous, kept: seq<Row>)
    requires |prev| == |cs|
    ensures kept == [] ==> Final(prev, kept) == prev && Final(Nothing(cs), kept) == Nothing(cs)
    ensures kept != [] ==> Final(prev, kept) == Final(Nothing(cs), kept)
  {
  }

  /** Any list of batches, each given the states of the one before, gives the rows, counters and states
      of one run over all rows exactly when the states carry (or there is no constraint). */
  lemma BatchesAreOneRun(cs: seq<Constraint>, batches: seq<seq<Row>>, states: seq<State>)
    requires AllUsable(cs) && batches != []
    requires forall i | 0 <= i < |batches| :: Fits(cs, batches[i]) && Consistent(cs, batches[i])
    ensures Fits(cs, Flatten(batches))
    ensures ExecuteAll(cs, batches, states) == Execute(cs, Flatten(batches), states) <==>
            cs == [] || AllCarry(cs, Incoming(cs, states), false, false, batches)
  {
    hide Kept, Incoming, Consistent, AllCarry, ExecuteAll, Execute, Flatten, Fits, AllUsable, EndsAlike;
    CarryingAgrees(cs, Incoming(cs, states), false, false, batches, states);
    var all, whole := ExecuteAll(cs, batches, states), Execute(cs, Flatten(batches), states);
    CountsAddUp(cs, batches, states);
    KeptBy(cs, Flatten(batches), states);
    if cs == [] {
      NoConstraints(cs, batches, states);
    } else if all.kept == whole.kept {
      StatesAgree(cs, batches, states, whole.kept);
    }
  }

  lemma StatesAgree(cs: seq<Constraint>, batches: seq<seq<Row>>, states: seq<State>, kept: seq<Row>)
    requires cs != [] && AllUsable(cs) && batches != [] && forall i | 0 <= i < |batches| :: Fits(cs, batches[i])
    requires kept == ExecuteAll(cs, batches, states).kept && Fits(cs, kept)
    ensures ExecuteAll(cs, batches, states).states == Outgoing(cs, kept) <==> EndsAlike(cs, batches, states, false, false)
  {
    hide ExecuteAll, LastKept;
    EndStates(cs, batches, states);
    var last := LastKept(cs, batches, states);
    if last == [] && kept != [] {
      assert Outgoing(cs, last)[0] != Outgoing(cs, kept)[0];
    } else if last != [] {
      assert kept[|kept| - 1] == kept[|kept| - |last|..][|last| - 1];
    }
  }

  /** The counters follow from the rows kept. */
  lemma {:induction false} CountsAddUp(cs: seq<Constraint>, batches: seq<seq<Row>>, states: seq<State>)
    requires AllUsable(cs) && forall i | 0 <= i < |batches| :: Fits(cs, batches[i])
    ensures var all := ExecuteAll(cs, batches, states);
            all.passed == |all.kept| && all.passed + all.filtered == |Flatten(batches)|
    decreases |batches|
  {
    hide Kept;
    if batches != [] {
      CountsAddUp(cs, batches[1..], Execute(cs, batches[0], states).states);
    }
  }

  /** The states at the end are those of the last batch. */
  lemma {:induction false} EndStates(cs: seq<Constraint>, batches: seq<seq<Row>>, states: seq<State>)
    requires AllUsable(cs) && batches != [] && forall i | 0 <= i < |batches| :: Fits(cs, batches[i])
    ensures var last := LastKept(cs, batches, states); var all := ExecuteAll(cs, batches, states);
            && Fits(cs, last) && all.states == Outgoing(cs, last)
            && (last != [] ==> |last| <= |all.kept| && all.kept[|all.kept| - |last|..] == last)
    decreases |batches|
  {
    hide Outgoing, Kept, Incoming, Usable;
    var first := Execute(cs, batches[0], states);
    var more := batches[1..];
    if more != [] {
      EndStates(cs, more, first.states);
      var last, rest := LastKept(cs, more, first.states), ExecuteAll(cs, more, first.states).kept;
      if last != [] {
        var all := first.kept + rest;
        assert all[|all| - |last|..] == rest[|rest| - |last|..];
      }
    } else {
      assert first.kept + [] == first.kept;
    }
  }

  lemma {:induction false} NoConstraints(cs: seq<Constraint>, batches: seq<seq<Row>>, states: seq<State>)
    requires cs == [] && batches != [] && forall i | 0 <= i < |batches| :: Fits(cs, batches[i])
    requires Fits(cs, Flatten(batches))
    ensures ExecuteAll(cs, batches, states).kept == Flatten(batches) == Execute(cs, Flatten(batches), states).kept
    ensures ExecuteAll(cs, batches, states).states == []
    decreases |batches|
  {
    AllKept(cs, batches[0], states);
    AllKept(cs, Flatten(batches), states);
    if batches[1..] != [] {
      var first := Execute(cs, batches[0], states);
      forall i | 0 <= i < |Flatten(batches[1..])| ensures |Flatten(batches[1..])[i]| == 0 {
        assert Flatten(batches)[|batches[0]| + i] == Flatten(batches[1..])[i];
      }
      NoConstraints(cs, batches[1..], first.states);
    } else {
      assert Flatten(batches) == batches[0] + [] == batches[0];
    }
  }

  lemma {:induction false} AllKept(cs: seq<Constraint>, rows: seq<Row>, states: seq<State>)
    requires cs == [] && Fits(cs, rows)
    ensures Execute(cs, rows, states).kept == rows
    decreases |rows|
  {
    if rows != [] {
      KeptCons(cs, Incoming(cs, states), rows);
      AllKept(cs, rows[1..], states);
      assert After(rows[0]) == Incoming(cs, states);
    } else {
      NothingKept(cs, Incoming(cs, states));
    }
  }
}
