/** The inter-row engine over tables whose columns are stored in chunks. Every batch is proved to
    give what the filter gives on the flattened rows, so the chunk layout does not matter. */
module InterRowEngine {
  import opened Common
  import opened Schema
  import opened InterRowFilter

  /** `seen` is what the buffer of a cell that is no floating-point number gives when it is read as one. */
  datatype Value = Number(r: real) | Other(text: string, seen: real)

  /** A null cell has a value in its buffer all the same. */
  datatype Cell = Cell(value: Value, isNull: bool)

  type Chunks = seq<seq<Cell>>

  datatype Table = Table(columns: seq<Chunks>, rows: nat)

  datatype EngineError = OrderColumnRequired | UndefinedColumn | TypeMismatch | InvalidDelta

  datatype Outcome =
    | Failed(error: EngineError)
    | Done(filtered: Option<Table>, states: seq<State>, passed: nat, dropped: nat)

  /** All columns of the schema are there, each with a cell for every row. */
  ghost predicate Matches(schema: Schema, t: Table) {
    |t.columns| == |schema.columns| && forall c | 0 <= c < |t.columns| :: |Flatten(t.columns[c])| == t.rows
  }

  /** What the engine reads: it takes every constrained column for a column of floating-point numbers. */
  function NumberOf(cell: Cell): real { if cell.value.Number? then cell.value.r else cell.value.seen }

  function Numbers(cells: seq<Cell>): (v: seq<real>)
    ensures |v| == |cells|
  {
    seq(|cells|, i requires 0 <= i < |cells| => NumberOf(cells[i]))
  }

  /** The values of the constrained columns, one sequence per constraint. */
  ghost predicate ViewOf(cs: seq<Constraint>, schema: Schema, t: Table, values: seq<seq<real>>) {
    && |values| == |cs|
    && forall k | 0 <= k < |cs| ::
         var c := IndexOf(schema.columns, cs[k].column);
         0 <= c < |t.columns| && values[k] == Numbers(Flatten(t.columns[c]))
  }

  function RowAt(values: seq<seq<real>>, i: nat): Row
    requires forall k | 0 <= k < |values| :: i < |values[k]|
  {
    seq(|values|, k requires 0 <= k < |values| => values[k][i])
  }

  function RowsOf(values: seq<seq<real>>, n: nat): (rows: seq<Row>)
    requires forall k | 0 <= k < |values| :: |values[k]| == n
    ensures |rows| == n
  {
    seq(n, i requires 0 <= i < n => RowAt(values, i))
  }

  predicate NumericColumns(schema: Schema, cs: seq<Constraint>) {
    forall k | 0 <= k < |cs| :: NumericColumn(schema, cs[k].column)
  }

  predicate NumericColumn(schema: Schema, name: string) {
    var c := IndexOf(schema.columns, name);
    c >= 0 && schema.columns[c].dataType in {Float, Int}
  }

  predicate GoodUpTo(schema: Schema, cs: seq<Constraint>, k: nat)
    requires k <= |cs|
  {
    forall c | 0 <= c < k :: Usable(cs[c]) && NumericColumn(schema, cs[c].column)
  }

  /** The first bad constraint, and what is wrong with it: its column is unknown, or not numeric, or
      else its delta is missing or not positive. */
  predicate FirstBad(schema: Schema, cs: seq<Constraint>, k: nat, error: EngineError)
    requires k < |cs|
  {
    GoodUpTo(schema, cs, k) &&
    if forall d | d in schema.columns :: d.name != cs[k].column then error == EngineError.UndefinedColumn
    else if !NumericColumn(schema, cs[k].column) then error == TypeMismatch
    else !Usable(cs[k]) && error == InvalidDelta
  }

  // ---------------------------------------------------------------- columns

  method FlattenNumbers(chunks: Chunks) returns (values: seq<real>)
    ensures values == Numbers(Flatten(chunks))
  {
    values := [];
    for ci := 0 to |chunks|
      invariant Numbers(Flatten(chunks)) == values + Numbers(Flatten(chunks[ci..]))
    {
      assert chunks[ci..][1..] == chunks[ci + 1..];
      ghost var tail := Flatten(chunks[ci + 1..]);
      for j := 0 to |chunks[ci]|
        invariant Numbers(Flatten(chunks)) == values + Numbers(chunks[ci][j..] + tail)
      {
        assert chunks[ci][j..] + tail == [chunks[ci][j]] + (chunks[ci][j + 1..] + tail);
        assert Numbers(chunks[ci][j..] + tail) == [NumberOf(chunks[ci][j])] + Numbers(chunks[ci][j + 1..] + tail);
        values := values + [NumberOf(chunks[ci][j])];
      }
      assert chunks[ci][|chunks[ci]|..] + tail == tail;
    }
    assert chunks[|chunks|..] == [];
  }

  /** The cell in row `idx`, found by walking the chunks. */
  method CellAt(chunks: Chunks, idx: nat) returns (cell: Cell)
    requires idx < |Flatten(chunks)|
    ensures cell == Flatten(chunks)[idx]
  {
    var offset, ci := 0, 0;
    while ci < |chunks| && idx >= offset + |chunks[ci]|
      invariant 0 <= ci <= |chunks| && offset <= idx
      invariant idx - offset < |Flatten(chunks[ci..])|
      invariant Flatten(chunks[ci..])[idx - offset] == Flatten(chunks)[idx]
    {
      assert chunks[ci..][1..] == chunks[ci + 1..];
      offset := offset + |chunks[ci]|;
      ci := ci + 1;
    }
    cell := chunks[ci][idx - offset];
  }

  /** Positions at which the mask is set, in order. */
  function Passing(mask: seq<bool>, from: nat): (ps: seq<nat>)
    ensures forall i | 0 <= i < |ps| :: from <= ps[i] < from + |mask| && mask[ps[i] - from]
    decreases |mask|
  {
    if mask == [] then []
    else (if mask[0] then [from] else []) + Passing(mask[1..], from + 1)
  }

  function Picked<T>(rows: seq<T>, ps: seq<nat>): (s: seq<T>)
    requires forall i | 0 <= i < |ps| :: ps[i] < |rows|
    ensures |s| == |ps|
  {
    seq(|ps|, i requires 0 <= i < |ps| => rows[ps[i]])
  }

  lemma PickedCons<T>(rows: seq<T>, p: nat, ps: seq<nat>)
    requires p < |rows| && forall i | 0 <= i < |ps| :: ps[i] < |rows|
    ensures Picked(rows, [p] + ps) == [rows[p]] + Picked(rows, ps)
  {
  }

  lemma {:induction false} PickedIsSelected<T>(rows: seq<T>, mask: seq<bool>, from: nat)
    requires from + |mask| == |rows|
    ensures Picked(rows, Passing(mask, from)) == Selected(rows[from..], mask)
    decreases |mask|
  {
    hide Picked;
    if mask == [] {
      assert Picked(rows, []) == [];
    } else {
      var rest := Passing(mask[1..], from + 1);
      PickedIsSelected(rows, mask[1..], from + 1);
      assert rows[from..][1..] == rows[from + 1..];
      if mask[0] {
        PickedCons(rows, from, rest);
      } else {
        assert [] + rest == rest;
        assert [] + Selected(rows[from + 1..], mask[1..]) == Selected(rows[from + 1..], mask[1..]);
      }
    }
  }

  /** The builder appends what it reads from the buffers, so nulls turn into values. */
  function Rebuilt(cells: seq<Cell>): (r: seq<Cell>)
    ensures |r| == |cells| && Numbers(r) == Numbers(cells)
    ensures r == cells <==> forall i | 0 <= i < |cells| :: !cells[i].isNull
  {
    seq(|cells|, i requires 0 <= i < |cells| => cells[i].(isNull := false))
  }

  method RebuildColumn(chunks: Chunks, passing: seq<nat>) returns (column: Chunks)
    requires forall i | 0 <= i < |passing| :: passing[i] < |Flatten(chunks)|
    ensures column == [Rebuilt(Picked(Flatten(chunks), passing))]
  {
    var cells := [];
    for i := 0 to |passing|
      invariant cells == Rebuilt(Picked(Flatten(chunks), passing[..i]))
    {
      var cell := CellAt(chunks, passing[i]);
      cells := cells + [cell.(isNull := false)];
    }
    assert passing[..|passing|] == passing;
    column := [cells];
  }

  // ---------------------------------------------------------------- the mask

  /** The loop over rows and constraints; `lastPass` is the last row kept so far, or -1. */
  method ComputeMask(cs: seq<Constraint>, values: seq<seq<real>>, n: nat, prev: Previous)
    returns (pass: seq<bool>, passed: nat, dropped: nat)
    requires AllUsable(cs) && |values| == |prev| == |cs| && forall k | 0 <= k < |cs| :: |values[k]| == n
    ensures Fits(cs, RowsOf(values, n)) && pass == Mask(cs, prev, RowsOf(values, n))
    ensures passed == |Kept(cs, prev, RowsOf(values, n))| && passed + dropped == n
  {
    hide Passes, Kept, Mask, After;
    ghost var rows := RowsOf(values, n);
    assert Fits(cs, rows);
    pass, passed, dropped := [], 0, 0;
    var lastPass := -1;
    ghost var current := prev;
    assert rows[0..] == rows;
    assert [] + Mask(cs, prev, rows) == Mask(cs, prev, rows);
    assert Kept(cs, prev, rows[0..]) == Kept(cs, prev, rows);
    for i := 0 to n
      invariant |pass| == i && -1 <= lastPass < i && |current| == |cs|
      invariant current == if lastPass < 0 then prev else After(rows[lastPass])
      invariant Mask(cs, prev, rows) == pass + Mask(cs, current, rows[i..])
      invariant |Kept(cs, prev, rows)| == passed + |Kept(cs, current, rows[i..])|
      invariant passed + dropped == i
    {
      var rowPasses := CheckRow(cs, values, i, lastPass, prev);
      assert rows[i..][1..] == rows[i + 1..];
      ghost var next := if rowPasses then After(rows[i]) else current;
      OneRow(cs, current, rows, i);
      Regroup(pass, rowPasses, Mask(cs, next, rows[i + 1..]));
      pass := pass + [rowPasses];
      if rowPasses {
        passed, lastPass, current := passed + 1, i, next;
      } else {
        dropped := dropped + 1;
      }
    }
    assert rows[n..] == [];
    NothingKept(cs, current);
    assert pass + Mask(cs, current, rows[n..]) == pass;
  }

  lemma Regroup(a: seq<bool>, b: bool, c: seq<bool>)
    ensures a + ([b] + c) == (a + [b]) + c
  {
  }

  /** What the row `i` adds to the mask and to the rows kept. */
  lemma OneRow(cs: seq<Constraint>, prev: Previous, rows: seq<Row>, i: nat)
    requires AllUsable(cs) && |prev| == |cs| && Fits(cs, rows) && i < |rows|
    ensures var ok := Passes(cs, prev, rows[i]);
            var next := if ok then After(rows[i]) else prev;
            && |next| == |cs| && Mask(cs, prev, rows[i..]) == [ok] + Mask(cs, next, rows[i + 1..])
            && |Kept(cs, prev, rows[i..])| == (if ok then 1 else 0) + |Kept(cs, next, rows[i + 1..])|
  {
    hide Passes, Kept, Mask, After;
    assert rows[i..][1..] == rows[i + 1..];
    KeptCons(cs, prev, rows[i..]);
    MaskCons(cs, prev, rows[i..]);
  }

  lemma MaskCons(cs: seq<Constraint>, prev: Previous, rows: seq<Row>)
    requires AllUsable(cs) && |prev| == |cs| && Fits(cs, rows) && rows != []
    ensures Mask(cs, prev, rows) ==
            [Passes(cs, prev, rows[0])] +
            Mask(cs, if Passes(cs, prev, rows[0]) then After(rows[0]) else prev, rows[1..])
  {
  }

  method CheckRow(cs: seq<Constraint>, values: seq<seq<real>>, i: nat, lastPass: int, prev: Previous)
    returns (ok: bool)
    requires AllUsable(cs) && |values| == |prev| == |cs| && -1 <= lastPass < i
    requires forall k | 0 <= k < |cs| :: i < |values[k]|
    ensures ok == Passes(cs, if lastPass < 0 then prev else After(RowAt(values, lastPass)), RowAt(values, i))
  {
    ghost var reference := if lastPass < 0 then prev else After(RowAt(values, lastPass));
    ok := true;
    for k := 0 to |cs|
      invariant ok
      invariant forall c | 0 <= c < k && reference[c].Some? :: Check(cs[c], RowAt(values, i)[c], reference[c].value)
    {
      var previous: real;
      if lastPass < 0 {
        if prev[k] == None {
          continue;
        }
        previous := prev[k].value;
      } else {
        previous := values[k][lastPass];
      }
      assert reference[k] == Some(previous);
      if !Check(cs[k], values[k][i], previous) {
        assert RowAt(values, i)[k] == values[k][i];
        return false;
      }
    }
  }

  // ---------------------------------------------------------------- the engine

  class Engine {
    const schema: Schema
    const constraints: seq<Constraint>
    const orderColumn: string

    constructor (schema: Schema, constraints: seq<Constraint>)
      ensures this.schema == schema && this.constraints == constraints
      ensures orderColumn != "" ==> exists c :: c in schema.columns && c.isOrder && c.name == orderColumn
      ensures (exists c :: c in schema.columns && c.isOrder) && (forall c | c in schema.columns :: c.name != "") ==>
                orderColumn != ""
    {
      var order := "";
      var i := 0;
      while i < |schema.columns| && !schema.columns[i].isOrder
        invariant 0 <= i <= |schema.columns| && forall j | 0 <= j < i :: !schema.columns[j].isOrder
      {
        i := i + 1;
      }
      if i < |schema.columns| {
        order := schema.columns[i].name;
      }
      this.schema, this.constraints, this.orderColumn := schema, constraints, order;
    }

    method ValidateConstraints() returns (error: Option<EngineError>)
      ensures error == None <==>
                constraints == [] ||
                (orderColumn != "" && NumericColumns(schema, constraints) && AllUsable(constraints))
      ensures error == Some(OrderColumnRequired) <==> constraints != [] && orderColumn == ""
      ensures error.Some? && error != Some(OrderColumnRequired) ==>
                exists k: nat :: k < |constraints| && FirstBad(schema, constraints, k, error.value)
    {
      if constraints == [] {
        return None;
      }
      if orderColumn == "" {
        return Some(OrderColumnRequired);
      }
      for k := 0 to |constraints|
        invariant forall c | 0 <= c < k :: Usable(constraints[c])
        invariant forall c | 0 <= c < k :: NumericColumn(schema, constraints[c].column)
      {
        var c := constraints[k];
        var column := FindColumn(schema, c.column);
        assert GoodUpTo(schema, constraints, k);
        if column == None {
          assert forall d | d in schema.columns :: d.name != constraints[k].column;
          assert FirstBad(schema, constraints, k, EngineError.UndefinedColumn);
          return Some(EngineError.UndefinedColumn);
        }
        assert column.value in schema.columns && column.value.name == constraints[k].column;
        if column.value.dataType != Float && column.value.dataType != Int {
          assert FirstBad(schema, constraints, k, TypeMismatch);
          return Some(TypeMismatch);
        }
        if c.kind == DeltaMax && (c.deltaMax == None || c.deltaMax.value <= 0.0) {
          assert FirstBad(schema, constraints, k, InvalidDelta);
          return Some(InvalidDelta);
        }
        if c.kind == DeltaMin && (c.deltaMin == None || c.deltaMin.value <= 0.0) {
          assert FirstBad(schema, constraints, k, InvalidDelta);
          return Some(InvalidDelta);
        }
      }
      return None;
    }

    /** A batch that is missing counts as one without rows. */
    method ExecuteBatch(batch: Option<Table>, states: seq<State>)
      returns (r: Outcome, ghost values: seq<seq<real>>)
      requires batch.Some? ==> Matches(schema, batch.value)
      ensures r.Done? <==>
                (constraints == [] ||
                 (orderColumn != "" && NumericColumns(schema, constraints) && AllUsable(constraints)))
      ensures r.Done? && batch.None? ==> Fits(constraints, []) && r == Done(None, Outgoing(constraints, []), 0, 0)
      ensures r.Done? && batch.Some? ==>
                var t := batch.value;
                && ViewOf(constraints, schema, t, values)
                && AllUsable(constraints) && (forall k | 0 <= k < |values| :: |values[k]| == t.rows)
                && Fits(constraints, RowsOf(values, t.rows))
                && var result := Execute(constraints, RowsOf(values, t.rows), states);
                   var mask := Mask(constraints, Incoming(constraints, states), RowsOf(values, t.rows));
                   && r.states == result.states && r.passed == result.passed && r.dropped == result.filtered
                   && (r.filtered == None <==> t.rows > 0 && result.passed == 0)
                   && (r.filtered.Some? ==>
                         && r.filtered.value.rows == result.passed
                         && |r.filtered.value.columns| == |t.columns|
                         && forall c | 0 <= c < |t.columns| ::
                              Flatten(r.filtered.value.columns[c]) == Rebuilt(Selected(Flatten(t.columns[c]), mask)))
    {
      values := [];
      var invalid := ValidateConstraints();
      if invalid.Some? {
        return Failed(invalid.value), values;
      }
      if batch.None? {
        return Done(None, Outgoing(constraints, []), 0, 0), values;
      }
      var t := batch.value;
      var cols := ReadColumns(t);
      values := cols;
      r := FilterColumns(t, cols, states);
    }

    method ReadColumns(t: Table) returns (cols: seq<seq<real>>)
      requires Matches(schema, t) && NumericColumns(schema, constraints)
      ensures ViewOf(constraints, schema, t, cols) && forall k | 0 <= k < |cols| :: |cols[k]| == t.rows
    {
      var cs := constraints;
      cols := [];
      for k := 0 to |cs|
        invariant |cols| == k
        invariant forall j | 0 <= j < k ::
                    var c := IndexOf(schema.columns, cs[j].column);
                    0 <= c < |t.columns| && cols[j] == Numbers(Flatten(t.columns[c]))
      {
        var index := ColumnIndex(schema, cs[k].column);
        var col := FlattenNumbers(t.columns[index]);
        cols := cols + [col];
      }
    }

    method FilterColumns(t: Table, cols: seq<seq<real>>, states: seq<State>) returns (r: Outcome)
      requires Matches(schema, t) && AllUsable(constraints) && |cols| == |constraints|
      requires forall k | 0 <= k < |cols| :: |cols[k]| == t.rows
      ensures Fits(constraints, RowsOf(cols, t.rows))
      ensures r.Done?
      ensures var result := Execute(constraints, RowsOf(cols, t.rows), states);
              var mask := Mask(constraints, Incoming(constraints, states), RowsOf(cols, t.rows));
              && r.states == result.states && r.passed == result.passed && r.dropped == result.filtered
              && (r.filtered == None <==> t.rows > 0 && result.passed == 0)
              && (r.filtered.Some? ==>
                    && r.filtered.value.rows == result.passed
                    && |r.filtered.value.columns| == |t.columns|
                    && forall c | 0 <= c < |t.columns| ::
                         Flatten(r.filtered.value.columns[c]) == Rebuilt(Selected(Flatten(t.columns[c]), mask)))
    {
      var cs, n := constraints, t.rows;
      var prev := Incoming(cs, states);
      var pass, passed, dropped := ComputeMask(cs, cols, n, prev);
      ghost var rows := RowsOf(cols, n);
      KeptIsChained(cs, prev, rows);
      var outgoing := OutgoingStates(cs, cols, n, pass, prev);
      if n == 0 {
        assert forall c | 0 <= c < |t.columns| :: Rebuilt(Selected(Flatten(t.columns[c]), pass)) == Flatten(t.columns[c]);
        return Done(Some(t), outgoing, 0, 0);
      }
      if passed == 0 {
        return Done(None, outgoing, passed, dropped);
      }
      var passing := Passing(pass, 0);
      var columns: seq<Chunks> := [];
      for c := 0 to |t.columns|
        invariant |columns| == c
        invariant forall d | 0 <= d < c :: Flatten(columns[d]) == Rebuilt(Selected(Flatten(t.columns[d]), pass))
      {
        var column := RebuildColumn(t.columns[c], passing);
        PickedIsSelected(Flatten(t.columns[c]), pass, 0);
        assert Flatten(t.columns[c])[0..] == Flatten(t.columns[c]);
        assert Flatten(column) == column[0] + Flatten(column[1..]) == column[0];
        columns := columns + [column];
      }
      r := Done(Some(Table(columns, passed)), outgoing, passed, dropped);
    }
  }

  /** The states left by the last row that passed. */
  method OutgoingStates(cs: seq<Constraint>, cols: seq<seq<real>>, n: nat, pass: seq<bool>, ghost prev: Previous)
    returns (states: seq<State>)
    requires AllUsable(cs) && |cols| == |prev| == |cs| && forall k | 0 <= k < |cs| :: |cols[k]| == n
    requires Fits(cs, RowsOf(cols, n)) && pass == Mask(cs, prev, RowsOf(cols, n))
    ensures Fits(cs, Kept(cs, prev, RowsOf(cols, n)))
    ensures states == Outgoing(cs, Kept(cs, prev, RowsOf(cols, n)))
  {
    ghost var rows := RowsOf(cols, n);
    ghost var kept := Kept(cs, prev, rows);
    KeptIsChained(cs, prev, rows);
    states := [];
    for k := 0 to |cs|
      invariant states == Outgoing(cs, kept)[..k]
    {
      var i := n - 1;
      while i >= 0 && !pass[i]
        invariant -1 <= i < n && forall j | i < j < n :: !pass[j]
      {
        i := i - 1;
      }
      LastSelected(rows, pass, i);
      var state := if i < 0 then State(cs[k].column, None, false) else State(cs[k].column, Some(cols[k][i]), true);
      states := states + [state];
    }
  }

  lemma {:induction false} LastSelected<T>(rows: seq<T>, mask: seq<bool>, i: int)
    requires |mask| == |rows| && -1 <= i < |rows| && (i >= 0 ==> mask[i]) && forall j | i < j < |rows| :: !mask[j]
    ensures i < 0 ==> Selected(rows, mask) == []
    ensures i >= 0 ==> Selected(rows, mask) != [] && Selected(rows, mask)[|Selected(rows, mask)| - 1] == rows[i]
  {
    if rows != [] {
      var rest := Selected(rows[1..], mask[1..]);
      LastSelected(rows[1..], mask[1..], if i <= 0 then -1 else i - 1);
      assert Selected(rows, mask) == if mask[0] then [rows[0]] + rest else rest by { assert [] + rest == rest; }
      hide Selected;
    }
  }
}
