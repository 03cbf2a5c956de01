/** Two readings of value constraints that must agree: the interval per column that sampling uses,
    and the rules per constraint that validation checks. */
module Ranges {
  import opened Common
  import opened Schema
  import opened SynthLang

  const LOWEST := -1000000000000000000.0
  const HIGHEST := 1000000000000000000.0
  const YEAR := 31536000000000.0   // microseconds

  // ---------------------------------------------------------------- intervals

  /** The narrowest bounds seen so far for a column. */
  datatype Bounds = Bounds(lo: Option<real>, hi: Option<real>)

  predicate HasLower(op: Operator) { op == Between || op == GreaterThan || op == GreaterEqual }
  predicate HasUpper(op: Operator) { op == Between || op == LessThan || op == LessEqual }

  function Narrow(b: Bounds, c: ConstraintItem): Bounds {
    Bounds(if HasLower(c.op) && (b.lo == None || c.valueMin > b.lo.value) then Some(c.valueMin) else b.lo,
           if HasUpper(c.op) && (b.hi == None || c.valueMax < b.hi.value) then Some(c.valueMax) else b.hi)
  }

  function BoundsOf(items: seq<ConstraintItem>, name: string): Bounds {
    if items == [] then Bounds(None, None)
    else
      var b, c := BoundsOf(items[..|items| - 1], name), items[|items| - 1];
      if c.column == name then Narrow(b, c) else b
  }

  predicate Numeric(c: ColumnDef) { c.dataType == Float || c.dataType == Int }

  function Or(x: Option<real>, default: real): real { if x.Some? then x.value else default }

  function LowEnd(c: ColumnDef, b: Bounds): real {
    if b.lo.Some? && b.lo.value > Or(c.rangeMin, LOWEST) then b.lo.value else Or(c.rangeMin, LOWEST)
  }

  function HighEnd(c: ColumnDef, b: Bounds): real {
    if b.hi.Some? && b.hi.value < Or(c.rangeMax, HIGHEST) then b.hi.value else Or(c.rangeMax, HIGHEST)
  }

  datatype ColumnRange = ColumnRange(name: string, dataType: DataType, minValue: real, maxValue: real, enumValues: seq<string>)

  function RangeOf(c: ColumnDef, items: seq<ConstraintItem>): ColumnRange {
    if Numeric(c) then
      ColumnRange(c.name, c.dataType, LowEnd(c, BoundsOf(items, c.name)), HighEnd(c, BoundsOf(items, c.name)), c.enumValues)
    else ColumnRange(c.name, c.dataType, 0.0, if c.dataType == Datetime then YEAR else 0.0, c.enumValues)
  }

  predicate AllDefined(columns: seq<ColumnDef>, items: seq<ConstraintItem>) {
    forall i | 0 <= i < |items| :: IndexOf(columns, items[i].column) >= 0
  }

  predicate NoneEmpty(columns: seq<ColumnDef>, items: seq<ConstraintItem>) {
    forall i | 0 <= i < |columns| && Numeric(columns[i]) ::
      RangeOf(columns[i], items).minValue < RangeOf(columns[i], items).maxValue
  }

  datatype ExtractResult = Extracted(ranges: seq<ColumnRange>) | ExtractFailed(error: SchemaError)

  function Extract(columns: seq<ColumnDef>, items: seq<ConstraintItem>): ExtractResult {
    if !AllDefined(columns, items) then ExtractFailed(UndefinedColumn)
    else if !NoneEmpty(columns, items) then ExtractFailed(SchemaError.InvalidRange)
    else Extracted(seq(|columns|, i requires 0 <= i < |columns| => RangeOf(columns[i], items)))
  }

  // ---------------------------------------------------------------- rules

  datatype Rule = Rule(column: string, dataType: DataType, minValue: Option<real>, maxValue: Option<real>,
                       minStrict: bool, maxStrict: bool)

  function RuleOf(c: ConstraintItem, dataType: DataType): Rule {
    match c.op
    case Between => Rule(c.column, dataType, Some(c.valueMin), Some(c.valueMax), false, false)
    case GreaterThan => Rule(c.column, dataType, Some(c.valueMin), None, true, false)
    case GreaterEqual => Rule(c.column, dataType, Some(c.valueMin), None, false, false)
    case LessThan => Rule(c.column, dataType, None, Some(c.valueMax), false, true)
    case LessEqual => Rule(c.column, dataType, None, Some(c.valueMax), false, false)
  }

  predicate Fails(r: Rule, x: real) {
    || (r.minValue.Some? && (if r.minStrict then x <= r.minValue.value else x < r.minValue.value))
    || (r.maxValue.Some? && (if r.maxStrict then x >= r.maxValue.value else x > r.maxValue.value))
  }

  /** One rule per constraint on a column of the schema. */
  function RulesOf(columns: seq<ColumnDef>, items: seq<ConstraintItem>): (rules: seq<Rule>) {
    if items == [] then []
    else
      var c := items[|items| - 1];
      var i := IndexOf(columns, c.column);
      RulesOf(columns, items[..|items| - 1]) + (if i < 0 then [] else [RuleOf(c, columns[i].dataType)])
  }

  lemma {:induction false} RulesAreConstraints(columns: seq<ColumnDef>, items: seq<ConstraintItem>, r: Rule)
    ensures r in RulesOf(columns, items) <==>
            exists c :: c in items && IndexOf(columns, c.column) >= 0
                        && r == RuleOf(c, columns[IndexOf(columns, c.column)].dataType)
  {
    if items != [] {
      var n := |items| - 1;
      RulesAreConstraints(columns, items[..n], r);
      assert forall c :: c in items <==> c in items[..n] || c == items[n];
    }
  }

  // ---------------------------------------------------------------- both readings agree

  /** The closed reading of a constraint. */
  predicate Allows(c: ConstraintItem, x: real) {
    (HasLower(c.op) ==> c.valueMin <= x) && (HasUpper(c.op) ==> x <= c.valueMax)
  }

  predicate Inside(b: Bounds, x: real) {
    (b.lo.Some? ==> b.lo.value <= x) && (b.hi.Some? ==> x <= b.hi.value)
  }

  lemma {:induction false} BoundsAreConjunction(items: seq<ConstraintItem>, name: string, x: real)
    ensures Inside(BoundsOf(items, name), x) <==> forall c | c in items && c.column == name :: Allows(c, x)
  {
    if items != [] {
      var n := |items| - 1;
      BoundsAreConjunction(items[..n], name, x);
      assert forall c :: c in items <==> c in items[..n] || c == items[n];
    }
  }

  /** A strict bound that the value sits on. */
  predicate OnStrictBound(c: ConstraintItem, x: real) {
    (c.op == GreaterThan && x == c.valueMin) || (c.op == LessThan && x == c.valueMax)
  }

  lemma RuleIsClosedReading(c: ConstraintItem, dataType: DataType, x: real)
    ensures !Fails(RuleOf(c, dataType), x) <==> Allows(c, x) && !OnStrictBound(c, x)
  {
  }

  predicate InSchema(c: ColumnDef, x: real) {
    Or(c.rangeMin, LOWEST) <= x <= Or(c.rangeMax, HIGHEST)
  }

  predicate PassesAll(rules: seq<Rule>, name: string, x: real) {
    forall r | r in rules && r.column == name :: !Fails(r, x)
  }

  lemma PassingIsAllowing(columns: seq<ColumnDef>, items: seq<ConstraintItem>, name: string, x: real)
    requires IndexOf(columns, name) >= 0
    ensures PassesAll(RulesOf(columns, items), name, x) <==>
            forall c | c in items && c.column == name :: Allows(c, x) && !OnStrictBound(c, x)
  {
    var rules := RulesOf(columns, items);
    var dataType := columns[IndexOf(columns, name)].dataType;
    forall c | c in items && c.column == name
      ensures RuleOf(c, dataType) in rules && RuleOf(c, dataType).column == name
      ensures !Fails(RuleOf(c, dataType), x) <==> Allows(c, x) && !OnStrictBound(c, x)
    {
      RulesAreConstraints(columns, items, RuleOf(c, dataType));
      RuleIsClosedReading(c, dataType, x);
    }
    forall r | r in rules && r.column == name ensures exists c :: c in items && c.column == name && r == RuleOf(c, dataType) {
      RulesAreConstraints(columns, items, r);
    }
  }

  /** For every numeric column and value: within the schema bounds and passing every rule is the
      same as lying in the interval and on none of the column's strict bounds. */
  lemma IntervalsAgreeWithRules(columns: seq<ColumnDef>, items: seq<ConstraintItem>, k: nat, x: real)
    requires k < |columns| && Numeric(columns[k])
    ensures var r := RangeOf(columns[k], items);
            InSchema(columns[k], x) && PassesAll(RulesOf(columns, items), columns[k].name, x) <==>
            r.minValue <= x <= r.maxValue && forall c | c in items && c.column == columns[k].name :: !OnStrictBound(c, x)
  {
    hide RulesOf, PassesAll, BoundsOf;
    var name := columns[k].name;
    BoundsAreConjunction(items, name, x);
    PassingIsAllowing(columns, items, name, x);
  }

  predicate Closed(items: seq<ConstraintItem>) {
    forall c | c in items :: c.op != GreaterThan && c.op != LessThan
  }

  /** With BETWEEN, >= and <= only, the readings are the same. */
  lemma ClosedReadingsAgree(columns: seq<ColumnDef>, items: seq<ConstraintItem>, k: nat, x: real)
    requires k < |columns| && Numeric(columns[k]) && Closed(items)
    ensures var r := RangeOf(columns[k], items);
            r.minValue <= x <= r.maxValue <==> InSchema(columns[k], x) && PassesAll(RulesOf(columns, items), columns[k].name, x)
  {
    IntervalsAgreeWithRules(columns, items, k, x);
  }

  function BoundOf(c: ConstraintItem): real { if HasLower(c.op) then c.valueMin else c.valueMax }

  /** A strict constraint spoils this: its own bound may lie in the interval and yet fail. */
  lemma StrictBoundFails(columns: seq<ColumnDef>, items: seq<ConstraintItem>, k: nat, c: ConstraintItem)
    requires k < |columns| && Numeric(columns[k]) && c in items && c.column == columns[k].name
    requires (c.op == GreaterThan || c.op == LessThan) && InRange(RangeOf(columns[k], items), BoundOf(c))
    ensures InSchema(columns[k], BoundOf(c)) && !PassesAll(RulesOf(columns, items), columns[k].name, BoundOf(c))
  {
    IntervalsAgreeWithRules(columns, items, k, BoundOf(c));
    PassingIsAllowing(columns, items, columns[k].name, BoundOf(c));
    assert OnStrictBound(c, BoundOf(c));
  }

  // ---------------------------------------------------------------- order

  lemma {:induction false} BoundsAreAttained(items: seq<ConstraintItem>, name: string)
    ensures var b := BoundsOf(items, name);
            && (b.lo.Some? <==> exists c :: c in items && c.column == name && HasLower(c.op))
            && (b.lo.Some? ==> exists c :: c in items && c.column == name && HasLower(c.op) && c.valueMin == b.lo.value)
            && (b.lo.Some? ==> forall c | c in items && c.column == name && HasLower(c.op) :: c.valueMin <= b.lo.value)
            && (b.hi.Some? <==> exists c :: c in items && c.column == name && HasUpper(c.op))
            && (b.hi.Some? ==> exists c :: c in items && c.column == name && HasUpper(c.op) && c.valueMax == b.hi.value)
            && (b.hi.Some? ==> forall c | c in items && c.column == name && HasUpper(c.op) :: c.valueMax >= b.hi.value)
  {
    hide HasLower, HasUpper;
    if items != [] {
      var n := |items| - 1;
      BoundsAreAttained(items[..n], name);
      assert forall c :: c in items <==> c in items[..n] || c == items[n];
    }
  }

  lemma SameBounds(items: seq<ConstraintItem>, items': seq<ConstraintItem>, name: string)
    requires forall c :: c in items <==> c in items'
    ensures BoundsOf(items, name) == BoundsOf(items', name)
  {
    hide HasLower, HasUpper, BoundsOf;
    BoundsAreAttained(items, name);
    BoundsAreAttained(items', name);
  }

  /** Only the set of constraints matters, not their order or repetition. */
  lemma OrderIsImmaterial(columns: seq<ColumnDef>, items: seq<ConstraintItem>, items': seq<ConstraintItem>)
    requires forall c :: c in items <==> c in items'
    ensures Extract(columns, items) == Extract(columns, items')
  {
    hide BoundsOf;
    forall name ensures BoundsOf(items, name) == BoundsOf(items', name) {
      SameBounds(items, items', name);
    }
    assert forall i | 0 <= i < |items| :: items[i] in items';
    assert forall i | 0 <= i < |items'| :: items'[i] in items;
    forall i | 0 <= i < |columns| ensures RangeOf(columns[i], items) == RangeOf(columns[i], items') {
    }
  }

  // ---------------------------------------------------------------- the empty-range error

  ghost predicate AtMostOnePoint(r: ColumnRange) {
    forall x, y | InRange(r, x) && InRange(r, y) :: x == y
  }

  predicate InRange(r: ColumnRange, x: real) { r.minValue <= x <= r.maxValue }

  lemma FewPoints(r: ColumnRange)
    ensures AtMostOnePoint(r) <==> r.minValue >= r.maxValue
  {
    if r.minValue < r.maxValue {
      assert InRange(r, r.minValue) && InRange(r, r.maxValue);
    }
  }

  /** With all columns defined, extraction fails exactly when some interval has at most one point. */
  lemma InvalidRangeExactly(columns: seq<ColumnDef>, items: seq<ConstraintItem>)
    ensures Extract(columns, items) == ExtractFailed(UndefinedColumn) <==> !AllDefined(columns, items)
    ensures Extract(columns, items) == ExtractFailed(SchemaError.InvalidRange) <==>
            AllDefined(columns, items) && exists i :: 0 <= i < |columns| && Numeric(columns[i]) && AtMostOnePoint(RangeOf(columns[i], items))
  {
    hide RangeOf, AtMostOnePoint;
    forall i | 0 <= i < |columns|
      ensures AtMostOnePoint(RangeOf(columns[i], items)) <==> RangeOf(columns[i], items).minValue >= RangeOf(columns[i], items).maxValue
    {
      FewPoints(RangeOf(columns[i], items));
    }
  }

  // ---------------------------------------------------------------- in plain comparisons

  /** What the constraint says of a value. */
  predicate Meets(c: ConstraintItem, x: real) {
    && (c.op == Between ==> c.valueMin <= x <= c.valueMax)
    && (c.op == GreaterThan ==> c.valueMin < x)
    && (c.op == GreaterEqual ==> c.valueMin <= x)
    && (c.op == LessThan ==> x < c.valueMax)
    && (c.op == LessEqual ==> x <= c.valueMax)
  }

  /** A value passes the rules of a column exactly when it meets every constraint on it. */
  lemma PassingIsMeeting(columns: seq<ColumnDef>, items: seq<ConstraintItem>, name: string, x: real)
    requires IndexOf(columns, name) >= 0
    ensures PassesAll(RulesOf(columns, items), name, x) <==> forall c | c in items && c.column == name :: Meets(c, x)
  {
    hide PassesAll, RulesOf;
    PassingIsAllowing(columns, items, name, x);
    assert forall c: ConstraintItem :: Meets(c, x) <==> Allows(c, x) && !OnStrictBound(c, x);
  }

  /** Some constraint on the column has this lower bound, or this upper bound. */
  ghost predicate Lower(items: seq<ConstraintItem>, name: string, x: real) {
    exists c :: c in items && c.column == name && c.op != LessThan && c.op != LessEqual && c.valueMin == x
  }

  ghost predicate Upper(items: seq<ConstraintItem>, name: string, x: real) {
    exists c :: c in items && c.column == name && c.op != GreaterThan && c.op != GreaterEqual && c.valueMax == x
  }

  /** The interval of a numeric column starts at the largest of its lower bounds, the one of the schema
      or minus ten to the eighteenth included, and ends at the smallest of its upper bounds. */
  lemma NumericRange(c: ColumnDef, items: seq<ConstraintItem>)
    requires c.dataType == Float || c.dataType == Int
    ensures var r := RangeOf(c, items);
            var lo := if c.rangeMin.Some? then c.rangeMin.value else -1000000000000000000.0;
            var hi := if c.rangeMax.Some? then c.rangeMax.value else 1000000000000000000.0;
            && r.name == c.name && r.dataType == c.dataType && r.enumValues == c.enumValues
            && (r.minValue == lo || Lower(items, c.name, r.minValue)) && lo <= r.minValue
            && (forall x | Lower(items, c.name, x) :: x <= r.minValue)
            && (r.maxValue == hi || Upper(items, c.name, r.maxValue)) && r.maxValue <= hi
            && (forall x | Upper(items, c.name, x) :: r.maxValue <= x)
  {
    hide BoundsOf;
    BoundsAreAttained(items, c.name);
  }

  /** Other columns get no interval, except that a time column ranges over a year of microseconds. */
  lemma OtherRange(c: ColumnDef, items: seq<ConstraintItem>)
    requires c.dataType != Float && c.dataType != Int
    ensures var r := RangeOf(c, items);
            && r.name == c.name && r.dataType == c.dataType && r.enumValues == c.enumValues && r.minValue == 0.0
            && r.maxValue == (if c.dataType == Datetime then 31536000000000.0 else 0.0)
  {
  }

  /** What is extracted is one range for each column, in the order of the columns. */
  lemma ExtractedInOrder(columns: seq<ColumnDef>, items: seq<ConstraintItem>)
    ensures var r := Extract(columns, items);
            r.Extracted? ==> |r.ranges| == |columns| && forall i | 0 <= i < |columns| :: r.ranges[i] == RangeOf(columns[i], items)
  {
    hide RangeOf;
  }
}
