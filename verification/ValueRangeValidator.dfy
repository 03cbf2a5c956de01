/** The validator that counts, rule by rule, the values of a batch that are out of range. */
module ValueRangeValidator {
  import opened Common
  import opened Schema
  import opened SynthLang
  import opened Ranges

  datatype Column =
    | Doubles(doubles: seq<seq<Option<real>>>)
    | Int64s(ints: seq<seq<Option<int>>>)
    | OtherColumn

  datatype Field = Field(name: string, column: Column)

  datatype Batch = Batch(fields: seq<Field>, rows: nat)

  /** `row` counts within the chunk. */
  datatype Failure = Failure(row: nat, column: string, actual: real, expectedMin: real, expectedMax: real)

  datatype Validation = Validation(checked: nat, passed: int, failed: nat, passRate: real, failures: seq<Failure>)

  datatype ValidateResult = Validated(v: Validation) | InvalidBatch | ColumnNotInBatch(name: string)

  /** The only field of this name; none if there are several. */
  function FieldIndex(fields: seq<Field>, name: string): (i: int)
    ensures -1 <= i < |fields|
    ensures i >= 0 <==> exists j :: IsOnly(fields, name, j)
    ensures i >= 0 ==> IsOnly(fields, name, i)
  {
    if exists i :: 0 <= i < |fields| && IsOnly(fields, name, i) then
      OnlyOne(fields, name);
      var i :| 0 <= i < |fields| && IsOnly(fields, name, i);
      i
    else -1
  }

  predicate IsOnly(fields: seq<Field>, name: string, i: int) {
    0 <= i < |fields| && fields[i].name == name && forall j | 0 <= j < |fields| && j != i :: fields[j].name != name
  }

  lemma OnlyOne(fields: seq<Field>, name: string)
    ensures forall a, b | IsOnly(fields, name, a) && IsOnly(fields, name, b) :: a == b
  {
  }

  function AsReal(x: Option<int>): Option<real> { if x.Some? then Some(x.value as real) else None }

  function AsReals(chunk: seq<Option<int>>): (r: seq<Option<real>>)
    ensures |r| == |chunk|
  {
    seq(|chunk|, i requires 0 <= i < |chunk| => AsReal(chunk[i]))
  }

  function FailureOf(r: Rule, row: nat, x: real): Failure { Failure(row, r.column, x, Or(r.minValue, 0.0), Or(r.maxValue, 0.0)) }

  /** Failures in the first `n` cells of a chunk; empty cells are passed over. */
  function InChunk(r: Rule, chunk: seq<Option<real>>, n: nat): seq<Failure>
    requires n <= |chunk|
  {
    if n == 0 then []
    else
      var cell := chunk[n - 1];
      InChunk(r, chunk, n - 1) + (if cell.Some? && Fails(r, cell.value) then [FailureOf(r, n - 1, cell.value)] else [])
  }

  function InChunks(r: Rule, chunks: seq<seq<Option<real>>>): seq<Failure> {
    if chunks == [] then []
    else InChunks(r, chunks[..|chunks| - 1]) + InChunk(r, chunks[|chunks| - 1], |chunks[|chunks| - 1]|)
  }

  function AllAsReals(chunks: seq<seq<Option<int>>>): (r: seq<seq<Option<real>>>)
    ensures |r| == |chunks|
  {
    seq(|chunks|, i requires 0 <= i < |chunks| => AsReals(chunks[i]))
  }

  /** The chunks of a numeric column as numbers. */
  function ChunksOf(c: Column): seq<seq<Option<real>>> {
    match c
    case Doubles(chunks) => chunks
    case Int64s(chunks) => AllAsReals(chunks)
    case OtherColumn => []
  }

  /** All failures in the order they are met: one for each rule and each value that breaks it. */
  function FailuresOf(rules: seq<Rule>, b: Batch): seq<Failure>
    requires forall i | 0 <= i < |rules| :: FieldIndex(b.fields, rules[i].column) >= 0
  {
    if rules == [] then []
    else
      var r := rules[|rules| - 1];
      FailuresOf(rules[..|rules| - 1], b) + InChunks(r, ChunksOf(b.fields[FieldIndex(b.fields, r.column)].column))
  }

  function FirstHundred(failures: seq<Failure>): seq<Failure> {
    if |failures| <= 100 then failures else failures[..100]
  }

  predicate ColumnsPresent(rules: seq<Rule>, b: Batch) {
    forall i | 0 <= i < |rules| :: FieldIndex(b.fields, rules[i].column) >= 0
  }

  /** The cells of a floating-point column as they are, those of an integer column as reals. */
  lemma ChunksAreNumbers(c: Column, i: nat, k: nat)
    ensures c.Doubles? ==> ChunksOf(c) == c.doubles
    ensures c.Int64s? ==> |ChunksOf(c)| == |c.ints|
    ensures c.Int64s? && i < |c.ints| && k < |c.ints[i]| ==>
              && |ChunksOf(c)[i]| == |c.ints[i]|
              && (c.ints[i][k] == None <==> ChunksOf(c)[i][k] == None)
              && (c.ints[i][k].Some? ==> ChunksOf(c)[i][k] == Some(c.ints[i][k].value as real))
  {
  }

  // ---------------------------------------------------------------- what a failure says

  /** The failure of the cell `k` of a chunk: where it stands, what it holds, and the bounds of the
      rule, zero for one that it does not have. */
  predicate Says(f: Failure, r: Rule, chunk: seq<Option<real>>, k: nat)
    requires k < |chunk|
  {
    && chunk[k].Some? && f.row == k && f.column == r.column && f.actual == chunk[k].value
    && f.expectedMin == (if r.minValue.Some? then r.minValue.value else 0.0)
    && f.expectedMax == (if r.maxValue.Some? then r.maxValue.value else 0.0)
  }

  /** The value breaks the rule: it lies below its minimum or above its maximum, or on a strict bound. */
  predicate OutOfRule(r: Rule, x: real) {
    || (r.minValue.Some? && (x < r.minValue.value || (r.minStrict && x == r.minValue.value)))
    || (r.maxValue.Some? && (r.maxValue.value < x || (r.maxStrict && x == r.maxValue.value)))
  }

  /** The failures of a chunk are those of its cells that break the rule, in their order. */
  lemma {:induction false} ChunkFailures(r: Rule, chunk: seq<Option<real>>, n: nat) returns (at: seq<nat>)
    requires n <= |chunk|
    ensures forall j, k | 0 <= j < k < |at| :: at[j] < at[k]
    ensures forall k: nat :: k in at <==> k < n && chunk[k].Some? && OutOfRule(r, chunk[k].value)
    ensures |InChunk(r, chunk, n)| == |at| && forall j | 0 <= j < |at| :: at[j] < n && Says(InChunk(r, chunk, n)[j], r, chunk, at[j])
  {
    if n == 0 {
      at := [];
    } else {
      at := ChunkFailures(r, chunk, n - 1);
      var cell := chunk[n - 1];
      if cell.Some? && OutOfRule(r, cell.value) {
        assert forall j | 0 <= j < |at| :: at[j] in at;
        at := at + [n - 1];
      }
    }
  }

  // ---------------------------------------------------------------- batches drawn from intervals

  predicate CellsIn(chunks: seq<seq<Option<real>>>, lo: real, hi: real) {
    forall c, k | 0 <= c < |chunks| && 0 <= k < |chunks[c]| && chunks[c][k].Some? :: lo <= chunks[c][k].value <= hi
  }

  /** The values of a numeric column of the schema lie in its interval. */
  ghost predicate Drawn(b: Batch, ranges: seq<ColumnRange>) {
    forall f, r | f in b.fields && r in ranges && f.name == r.name && (r.dataType == Float || r.dataType == Int) ::
      CellsIn(ChunksOf(f.column), r.minValue, r.maxValue)
  }

  lemma {:induction false} ChunkPasses(r: Rule, chunk: seq<Option<real>>, n: nat)
    requires n <= |chunk| && forall k | 0 <= k < n && chunk[k].Some? :: !Fails(r, chunk[k].value)
    ensures InChunk(r, chunk, n) == []
  {
    if n > 0 {
      ChunkPasses(r, chunk, n - 1);
    }
  }

  lemma {:induction false} ChunksPass(r: Rule, chunks: seq<seq<Option<real>>>)
    requires forall c, k | 0 <= c < |chunks| && 0 <= k < |chunks[c]| && chunks[c][k].Some? :: !Fails(r, chunks[c][k].value)
    ensures InChunks(r, chunks) == []
  {
    if chunks != [] {
      var n := |chunks| - 1;
      ChunksPass(r, chunks[..n]);
      ChunkPasses(r, chunks[n], |chunks[n]|);
    }
  }

  /** A rule of a closed constraint on a numeric column has no failures in a batch drawn from the intervals. */
  lemma RulePasses(schema: Schema, items: seq<ConstraintItem>, ranges: seq<ColumnRange>, b: Batch, r: Rule)
    requires Extract(schema.columns, items) == Extracted(ranges) && Closed(items) && Drawn(b, ranges)
    requires forall c | c in items :: IndexOf(schema.columns, c.column) >= 0 && Numeric(schema.columns[IndexOf(schema.columns, c.column)])
    requires r in RulesOf(schema.columns, items) && FieldIndex(b.fields, r.column) >= 0
    ensures InChunks(r, ChunksOf(b.fields[FieldIndex(b.fields, r.column)].column)) == []
  {
    hide RangeOf, Fails, InChunks, ChunksOf, RulesOf, FieldIndex, IndexOf;
    RulesAreConstraints(schema.columns, items, r);
    var c :| c in items && IndexOf(schema.columns, c.column) >= 0
             && r == RuleOf(c, schema.columns[IndexOf(schema.columns, c.column)].dataType);
    var k := IndexOf(schema.columns, c.column);
    var range := RangeOf(schema.columns[k], items);
    assert ranges[k] == range && range in ranges;
    RangeNames(schema.columns[k], items);
    var f := b.fields[FieldIndex(b.fields, r.column)];
    assert f in b.fields;
    var chunks := ChunksOf(f.column);
    assert CellsIn(chunks, range.minValue, range.maxValue);
    forall a, i | 0 <= a < |chunks| && 0 <= i < |chunks[a]| && chunks[a][i].Some? ensures !Fails(r, chunks[a][i].value) {
      ClosedReadingsAgree(schema.columns, items, k, chunks[a][i].value);
      assert PassesAll(RulesOf(schema.columns, items), r.column, chunks[a][i].value);
    }
    ChunksPass(r, chunks);
  }

  lemma RangeNames(c: ColumnDef, items: seq<ConstraintItem>)
    ensures RangeOf(c, items).name == c.name && RangeOf(c, items).dataType == c.dataType
  {
  }

  lemma {:induction false} NoFailures(rules: seq<Rule>, b: Batch)
    requires ColumnsPresent(rules, b)
    requires forall r | r in rules :: InChunks(r, ChunksOf(b.fields[FieldIndex(b.fields, r.column)].column)) == []
    ensures FailuresOf(rules, b) == []
  {
    hide InChunks, ChunksOf, FieldIndex;
    if rules != [] {
      NoFailures(rules[..|rules| - 1], b);
    }
  }

  /** Batches drawn from the extracted intervals have no failures. */
  lemma DrawnBatchesPass(schema: Schema, items: seq<ConstraintItem>, ranges: seq<ColumnRange>, b: Batch)
    requires Extract(schema.columns, items) == Extracted(ranges) && Closed(items) && Drawn(b, ranges)
    requires forall c | c in items :: IndexOf(schema.columns, c.column) >= 0 && Numeric(schema.columns[IndexOf(schema.columns, c.column)])
    requires ColumnsPresent(RulesOf(schema.columns, items), b)
    ensures FailuresOf(RulesOf(schema.columns, items), b) == []
  {
    hide Extract, Drawn, Closed, Numeric, InChunks, ChunksOf, FieldIndex, IndexOf;
    var rules := RulesOf(schema.columns, items);
    forall r | r in rules
      ensures FieldIndex(b.fields, r.column) >= 0
      ensures InChunks(r, ChunksOf(b.fields[FieldIndex(b.fields, r.column)].column)) == []
    {
      RulePasses(schema, items, ranges, b, r);
    }
    NoFailures(rules, b);
  }

  // ---------------------------------------------------------------- failures and rows

  /** The cells of a column, over all its chunks. */
  function Cells(chunks: seq<seq<Option<real>>>): seq<Option<real>> {
    if chunks == [] then [] else Cells(chunks[..|chunks| - 1]) + chunks[|chunks| - 1]
  }

  function CellsFor(r: Rule, b: Batch): seq<Option<real>>
    requires FieldIndex(b.fields, r.column) >= 0
  {
    Cells(ChunksOf(b.fields[FieldIndex(b.fields, r.column)].column))
  }

  predicate Breaks(r: Rule, cells: seq<Option<real>>, row: nat) {
    row < |cells| && cells[row].Some? && Fails(r, cells[row].value)
  }

  /** The rows that break one rule. */
  function Broken(r: Rule, cells: seq<Option<real>>): set<nat> {
    set row: nat | row < |cells| && Breaks(r, cells, row)
  }

  /** The rows of the batch that break any of the rules. */
  function FailingRows(rules: seq<Rule>, b: Batch): set<nat>
    requires ColumnsPresent(rules, b)
  {
    if rules == [] then {}
    else
      var r := rules[|rules| - 1];
      FailingRows(rules[..|rules| - 1], b) + Broken(r, CellsFor(r, b))
  }

  function Count(r: Rule, cells: seq<Option<real>>): nat {
    if cells == [] then 0
    else
      var n := |cells| - 1;
      Count(r, cells[..n]) + if Breaks(r, cells, n) then 1 else 0
  }

  lemma {:induction false} CountIsBroken(r: Rule, cells: seq<Option<real>>)
    ensures |Broken(r, cells)| == Count(r, cells)
    decreases |cells|
  {
    hide Fails;
    if cells == [] {
      assert Broken(r, cells) == {};
    } else {
      var n := |cells| - 1;
      CountIsBroken(r, cells[..n]);
      var before := Broken(r, cells[..n]);
      assert n !in before;
      assert Broken(r, cells) == if Breaks(r, cells, n) then before + {n} else before;
    }
  }

  lemma {:induction false} CountConcat(r: Rule, a: seq<Option<real>>, c: seq<Option<real>>)
    ensures Count(r, a + c) == Count(r, a) + Count(r, c)
    decreases |c|
  {
    hide Fails;
    if c == [] {
      assert a + c == a;
    } else {
      var n := |c| - 1;
      assert (a + c)[..|a + c| - 1] == a + c[..n];
      CountConcat(r, a, c[..n]);
    }
  }

  lemma {:induction false} ChunkCount(r: Rule, chunk: seq<Option<real>>, n: nat)
    requires n <= |chunk|
    ensures |InChunk(r, chunk, n)| == Count(r, chunk[..n])
  {
    hide Fails;
    if n > 0 {
      ChunkCount(r, chunk, n - 1);
      assert chunk[..n][..n - 1] == chunk[..n - 1];
    }
  }

  lemma {:induction false} ChunksCount(r: Rule, chunks: seq<seq<Option<real>>>)
    ensures |InChunks(r, chunks)| == Count(r, Cells(chunks))
    decreases |chunks|
  {
    hide InChunk;
    if chunks != [] {
      var n := |chunks| - 1;
      ChunksCount(r, chunks[..n]);
      ChunkCount(r, chunks[n], |chunks[n]|);
      assert chunks[n][..|chunks[n]|] == chunks[n];
      CountConcat(r, Cells(chunks[..n]), chunks[n]);
    }
  }

  /** No row breaks two of the rules. */
  ghost predicate OneRuleEach(rules: seq<Rule>, b: Batch)
    requires ColumnsPresent(rules, b)
  {
    forall i: nat, j: nat | i < j < |rules| :: Broken(rules[i], CellsFor(rules[i], b)) !! Broken(rules[j], CellsFor(rules[j], b))
  }

  lemma {:induction false} FailingRowsAre(rules: seq<Rule>, b: Batch)
    requires ColumnsPresent(rules, b)
    ensures forall row :: row in FailingRows(rules, b) <==> exists i: nat :: i < |rules| && row in Broken(rules[i], CellsFor(rules[i], b))
  {
    hide Broken, CellsFor;
    if rules != [] {
      var n := |rules| - 1;
      FailingRowsAre(rules[..n], b);
      assert forall i: nat | i < n :: rules[..n][i] == rules[i];
    }
  }

  /** The failure count is never below the number of failing rows, and it is that number exactly
      when no row breaks two rules. */
  lemma {:induction false} FailuresCountRows(rules: seq<Rule>, b: Batch)
    requires ColumnsPresent(rules, b)
    ensures |FailuresOf(rules, b)| >= |FailingRows(rules, b)|
    ensures |FailuresOf(rules, b)| == |FailingRows(rules, b)| <==> OneRuleEach(rules, b)
  {
    hide Broken, InChunks, FieldIndex, ChunksOf, Count, Cells;
    if rules != [] {
      var n := |rules| - 1;
      var r, before := rules[n], rules[..n];
      var cells := CellsFor(r, b);
      FailuresCountRows(before, b);
      ChunksCount(r, ChunksOf(b.fields[FieldIndex(b.fields, r.column)].column));
      CountIsBroken(r, cells);
      var u, f := FailingRows(before, b), Broken(r, cells);
      assert |u + f| == |u| + |f| - |u * f|;
      FailingRowsAre(before, b);
      OneMoreRuleEach(rules, b, u);
    }
  }

  lemma {:induction false} FewerThan(rows: set<nat>, n: nat)
    requires forall row | row in rows :: row < n
    ensures |rows| <= n
  {
    if n > 0 {
      FewerThan(rows - {n - 1}, n - 1);
    } else {
      assert rows == {};
    }
  }

  /** So it stays within the rows of the batch when no row breaks two rules. */
  lemma FailuresWithinRows(rules: seq<Rule>, b: Batch)
    requires ColumnsPresent(rules, b) && OneRuleEach(rules, b)
    requires forall i: nat | i < |rules| :: |CellsFor(rules[i], b)| <= b.rows
    ensures |FailuresOf(rules, b)| <= b.rows
  {
    hide FailuresOf, FailingRows, OneRuleEach, CellsFor;
    FailuresCountRows(rules, b);
    FailingRowsAre(rules, b);
    FewerThan(FailingRows(rules, b), b.rows);
  }

  lemma OneMoreRuleEach(rules: seq<Rule>, b: Batch, u: set<nat>)
    requires rules != [] && ColumnsPresent(rules, b) && ColumnsPresent(rules[..|rules| - 1], b)
    requires var before := rules[..|rules| - 1];
             forall row :: row in u <==> exists i: nat :: i < |before| && row in Broken(before[i], CellsFor(before[i], b))
    ensures var n := |rules| - 1;
            OneRuleEach(rules, b) <==> OneRuleEach(rules[..n], b) && u * Broken(rules[n], CellsFor(rules[n], b)) == {}
  {
    hide Broken, CellsFor;
    var n := |rules| - 1;
    assert forall i: nat | i < n :: rules[..n][i] == rules[i];
    if OneRuleEach(rules, b) {
      forall row | row in u ensures row !in Broken(rules[n], CellsFor(rules[n], b)) {
        var i: nat :| i < n && row in Broken(rules[..n][i], CellsFor(rules[..n][i], b));
        assert Broken(rules[i], CellsFor(rules[i], b)) !! Broken(rules[n], CellsFor(rules[n], b));
      }
    }
    if OneRuleEach(rules[..n], b) && u * Broken(rules[n], CellsFor(rules[n], b)) == {} {
      forall i: nat, j: nat | i < j < |rules|
        ensures Broken(rules[i], CellsFor(rules[i], b)) !! Broken(rules[j], CellsFor(rules[j], b))
      {
        if j < n {
          assert Broken(rules[..n][i], CellsFor(rules[..n][i], b)) !! Broken(rules[..n][j], CellsFor(rules[..n][j], b));
        } else {
          forall row | row in Broken(rules[i], CellsFor(rules[i], b)) ensures row !in Broken(rules[n], CellsFor(rules[n], b)) {
            assert row in Broken(rules[..n][i], CellsFor(rules[..n][i], b));
            assert row in u && row !in u * Broken(rules[n], CellsFor(rules[n], b));
          }
        }
      }
    }
  }

  // ---------------------------------------------------------------- the validator

  class ValueRangeValidator {
    var rules: seq<Rule>

    constructor (schema: Schema, items: seq<ConstraintItem>)
      ensures rules == RulesOf(schema.columns, items)
    {
      rules := [];
      new;
      for i := 0 to |items|
        invariant rules == RulesOf(schema.columns, items[..i])
      {
        assert items[..i + 1][..i] == items[..i];
        var c := items[i];
        var column := FindColumn(schema, c.column);
        if column.Some? {
          var rule := Rule(c.column, column.value.dataType, None, None, false, false);
          match c.op {
            case Between => rule := rule.(minValue := Some(c.valueMin), maxValue := Some(c.valueMax));
            case GreaterThan => rule := rule.(minValue := Some(c.valueMin), minStrict := true);
            case GreaterEqual => rule := rule.(minValue := Some(c.valueMin));
            case LessThan => rule := rule.(maxValue := Some(c.valueMax), maxStrict := true);
            case LessEqual => rule := rule.(maxValue := Some(c.valueMax));
          }
          rules := rules + [rule];
        }
      }
      assert items[..|items|] == items;
    }

    method CheckChunk(rule: Rule, chunk: seq<Option<real>>, failed: nat, failures: seq<Failure>, ghost before: seq<Failure>)
      returns (failed': nat, failures': seq<Failure>)
      requires failed == |before| && failures == FirstHundred(before)
      ensures failed' == |before + InChunk(rule, chunk, |chunk|)|
      ensures failures' == FirstHundred(before + InChunk(rule, chunk, |chunk|))
    {
      failed', failures' := failed, failures;
      assert before + [] == before;
      for k := 0 to |chunk|
        invariant failed' == |before + InChunk(rule, chunk, k)|
        invariant failures' == FirstHundred(before + InChunk(rule, chunk, k))
      {
        if chunk[k] == None {
          continue;
        }
        var val := chunk[k].value;
        var bad := false;
        if rule.minValue.Some? {
          if rule.minStrict {
            if val <= rule.minValue.value { bad := true; }
          } else {
            if val < rule.minValue.value { bad := true; }
          }
        }
        if rule.maxValue.Some? {
          if rule.maxStrict {
            if val >= rule.maxValue.value { bad := true; }
          } else {
            if val > rule.maxValue.value { bad := true; }
          }
        }
        assert bad == Fails(rule, val);
        if bad {
          var failure := Failure(k, rule.column, val, Or(rule.minValue, 0.0), Or(rule.maxValue, 0.0));
          OneMoreFailure(before + InChunk(rule, chunk, k), failure);
          assert before + InChunk(rule, chunk, k + 1) == before + InChunk(rule, chunk, k) + [failure];
          failed' := failed' + 1;
          if |failures'| < 100 {
            failures' := failures' + [failure];
          }
        } else {
          assert InChunk(rule, chunk, k + 1) == InChunk(rule, chunk, k);
        }
      }
    }

    lemma NoneYet()
      ensures FirstHundred([]) == []
    {
    }

    lemma OneMoreFailure(all: seq<Failure>, f: Failure)
      ensures FirstHundred(all + [f]) == if |FirstHundred(all)| < 100 then FirstHundred(all) + [f] else FirstHundred(all)
    {
    }

    lemma NoChunks(r: Rule, before: seq<Failure>)
      ensures before + InChunks(r, []) == before
    {
    }

    lemma OneMoreChunk(r: Rule, chunks: seq<seq<Option<real>>>, c: nat, before: seq<Failure>)
      requires c < |chunks|
      ensures before + InChunks(r, chunks[..c + 1]) == before + InChunks(r, chunks[..c]) + InChunk(r, chunks[c], |chunks[c]|)
    {
      hide InChunk;
      assert chunks[..c + 1][..c] == chunks[..c];
    }

    method CheckColumn(rule: Rule, column: Column, failed: nat, failures: seq<Failure>, ghost before: seq<Failure>)
      returns (failed': nat, failures': seq<Failure>)
      requires failed == |before| && failures == FirstHundred(before)
      ensures failed' == |before + InChunks(rule, ChunksOf(column))|
      ensures failures' == FirstHundred(before + InChunks(rule, ChunksOf(column)))
    {
      NoChunks(rule, before);
      hide InChunk, InChunks, FirstHundred;
      failed', failures' := failed, failures;
      if column.Doubles? || column.Int64s? {
        ghost var chunks := ChunksOf(column);
        var count := if column.Doubles? then |column.doubles| else |column.ints|;
        for c := 0 to count
          invariant failed' == |before + InChunks(rule, chunks[..c])|
          invariant failures' == FirstHundred(before + InChunks(rule, chunks[..c]))
        {
          OneMoreChunk(rule, chunks, c, before);
          var chunk := if column.Doubles? then column.doubles[c] else AsReals(column.ints[c]);
          assert chunk == chunks[c];
          failed', failures' := CheckChunk(rule, chunk, failed', failures', before + InChunks(rule, chunks[..c]));
        }
        assert chunks[..count] == chunks;
      }
    }

    lemma OneMoreRule(b: Batch, i: nat)
      requires i < |rules| && forall k | 0 <= k <= i :: FieldIndex(b.fields, rules[k].column) >= 0
      ensures FailuresOf(rules[..i + 1], b) ==
              FailuresOf(rules[..i], b) + InChunks(rules[i], ChunksOf(b.fields[FieldIndex(b.fields, rules[i].column)].column))
    {
      hide InChunks, ChunksOf, FieldIndex;
      assert rules[..i + 1][..i] == rules[..i];
    }

    /** Goes through the rules in order, up to one whose column the batch does not have. */
    method CheckRules(b: Batch) returns (missing: Option<string>, failed: nat, failures: seq<Failure>)
      ensures missing == None <==> ColumnsPresent(rules, b)
      ensures missing.Some? ==> FieldIndex(b.fields, missing.value) < 0 && exists rule :: rule in rules && rule.column == missing.value
      ensures missing == None ==> failed == |FailuresOf(rules, b)| && failures == FirstHundred(FailuresOf(rules, b))
    {
      NoneYet();
      failed, failures := 0, [];
      assert FailuresOf([], b) == [];
      hide InChunks, ChunksOf, FieldIndex, FirstHundred, FailuresOf;
      for i := 0 to |rules|
        invariant forall k | 0 <= k < i :: FieldIndex(b.fields, rules[k].column) >= 0
        invariant failed == |FailuresOf(rules[..i], b)| && failures == FirstHundred(FailuresOf(rules[..i], b))
      {
        var rule := rules[i];
        var index := FieldIndex(b.fields, rule.column);
        if index < 0 {
          return Some(rule.column), failed, failures;
        }
        OneMoreRule(b, i);
        failed, failures := CheckColumn(rule, b.fields[index].column, failed, failures, FailuresOf(rules[..i], b));
      }
      assert rules[..|rules|] == rules;
      missing := None;
    }

    /** The failure count is over rules and values, so a row that breaks two rules counts twice. */
    method ValidateBatch(batch: Option<Batch>) returns (r: ValidateResult)
      ensures batch.None? ==> r == InvalidBatch
      ensures batch.Some? && batch.value.rows == 0 ==> r == Validated(Validation(0, 0, 0, 1.0, []))
      ensures batch.Some? && batch.value.rows > 0 && !ColumnsPresent(rules, batch.value) ==>
                r.ColumnNotInBatch? && FieldIndex(batch.value.fields, r.name) < 0 && exists rule :: rule in rules && rule.column == r.name
      ensures batch.Some? && batch.value.rows > 0 && ColumnsPresent(rules, batch.value) ==>
                var all := FailuresOf(rules, batch.value);
                var rows := batch.value.rows;
                r == Validated(Validation(rows, rows - |all|, |all|, (rows - |all|) as real / rows as real, FirstHundred(all)))
    {
      if batch.None? {
        return InvalidBatch;
      }
      var b := batch.value;
      if b.rows == 0 {
        return Validated(Validation(0, 0, 0, 1.0, []));
      }
      hide InChunks, ChunksOf, FieldIndex, FirstHundred, FailuresOf, ColumnsPresent;
      var missing, failed, failures := CheckRules(b);
      if missing.Some? {
        return ColumnNotInBatch(missing.value);
      }
      var passed := b.rows - failed;
      r := Validated(Validation(b.rows, passed, failed, passed as real / b.rows as real, failures));
    }
  }
}
