/** Table schemas: column definitions, lookups by name, and what makes a schema valid. */
module Schema {
  import opened Common

  datatype DataType = Float | Int | Datetime | Text | Enum

  datatype ColumnDef = ColumnDef(name: string, dataType: DataType, notNull: bool, isOrder: bool,
                                 rangeMin: Option<real>, rangeMax: Option<real>, enumValues: seq<string>)

  datatype Schema = Schema(typeName: string, columns: seq<ColumnDef>)

  datatype SchemaError =
    | InvalidSchema
    | InvalidColumnName
    | DuplicateColumnName
    | InvalidRange
    | InvalidEnum
    | UndefinedColumn

  predicate RangeOk(c: ColumnDef) {
    c.rangeMin.Some? && c.rangeMax.Some? ==> c.rangeMin.value < c.rangeMax.value
  }

  predicate ColumnOk(c: ColumnDef) {
    c.name != "" && RangeOk(c) && (c.dataType == Enum ==> c.enumValues != [])
  }

  predicate DistinctNames(columns: seq<ColumnDef>) {
    forall i, j | 0 <= i < j < |columns| :: columns[i].name != columns[j].name
  }

  predicate WellFormed(s: Schema) {
    && s.typeName != "" && s.columns != []
    && DistinctNames(s.columns)
    && forall i | 0 <= i < |s.columns| :: ColumnOk(s.columns[i])
  }

  /** Index of the first column called `name`, or -1. */
  function IndexOf(columns: seq<ColumnDef>, name: string): (i: int)
    ensures -1 <= i < |columns|
    ensures i >= 0 ==> columns[i].name == name
    ensures forall j | 0 <= j < (if i < 0 then |columns| else i) :: columns[j].name != name
  {
    if columns == [] then -1
    else if columns[0].name == name then 0
    else var i := IndexOf(columns[1..], name); if i < 0 then -1 else i + 1
  }

  method ColumnIndex(s: Schema, name: string) returns (index: int)
    ensures index == IndexOf(s.columns, name)
  {
    for i := 0 to |s.columns|
      invariant forall j | 0 <= j < i :: s.columns[j].name != name
    {
      if s.columns[i].name == name {
        return i;
      }
    }
    return -1;
  }

  method FindColumn(s: Schema, name: string) returns (column: Option<ColumnDef>)
    ensures column == var i := IndexOf(s.columns, name); if i < 0 then None else Some(s.columns[i])
  {
    for i := 0 to |s.columns|
      invariant forall j | 0 <= j < i :: s.columns[j].name != name
    {
      if s.columns[i].name == name {
        return Some(s.columns[i]);
      }
    }
    return None;
  }

  method OrderColumns(s: Schema) returns (names: seq<string>)
    ensures forall name :: name in names <==> exists c :: c in s.columns && c.isOrder && c.name == name
  {
    names := [];
    for i := 0 to |s.columns|
      invariant forall name :: name in names <==> exists c :: c in s.columns[..i] && c.isOrder && c.name == name
    {
      assert s.columns[..i + 1] == s.columns[..i] + [s.columns[i]];
      if s.columns[i].isOrder {
        names := names + [s.columns[i].name];
      }
    }
    assert s.columns[..|s.columns|] == s.columns;
  }

  /** Columns before `i` are well-formed and have different names. */
  predicate GoodBefore(columns: seq<ColumnDef>, i: nat)
    requires i <= |columns|
  {
    DistinctNames(columns[..i]) && forall j | 0 <= j < i :: ColumnOk(columns[j])
  }

  /** What is wrong with column `i`: an empty name comes before one already used, that before a bad
      range, and that before an enum without values. */
  predicate Blamed(columns: seq<ColumnDef>, i: nat, error: SchemaError)
    requires i < |columns|
  {
    var c := columns[i];
    if c.name == "" then error == InvalidColumnName
    else if exists j :: 0 <= j < i && columns[j].name == c.name then error == DuplicateColumnName
    else if !RangeOk(c) then error == InvalidRange
    else c.dataType == Enum && c.enumValues == [] && error == InvalidEnum
  }

  /** `None` means valid; the order columns are always found, as they come from the columns. */
  method Validate(s: Schema) returns (error: Option<SchemaError>)
    ensures error == None <==> WellFormed(s)
    ensures error != Some(UndefinedColumn)
    ensures error == Some(InvalidSchema) <==> s.typeName == "" || s.columns == []
    ensures error.Some? && s.typeName != "" && s.columns != [] ==>
              exists i: nat :: i < |s.columns| && GoodBefore(s.columns, i) && Blamed(s.columns, i, error.value)
  {
    if s.typeName == "" || s.columns == [] {
      return Some(InvalidSchema);
    }
    var seen: set<string> := {};
    for i := 0 to |s.columns|
      invariant seen == set j | 0 <= j < i :: s.columns[j].name
      invariant forall j, k | 0 <= j < k < i :: s.columns[j].name != s.columns[k].name
      invariant forall j | 0 <= j < i :: ColumnOk(s.columns[j])
    {
      var c := s.columns[i];
      assert GoodBefore(s.columns, i);
      if c.name == "" {
        return Some(InvalidColumnName);
      }
      if c.name in seen {
        return Some(DuplicateColumnName);
      }
      seen := seen + {c.name};
      if c.rangeMin.Some? && c.rangeMax.Some? && c.rangeMin.value >= c.rangeMax.value {
        return Some(InvalidRange);
      }
      if c.dataType == Enum && c.enumValues == [] {
        return Some(InvalidEnum);
      }
    }
    var order := OrderColumns(s);
    for i := 0 to |order| {
      assert order[i] in order;
      var column := FindColumn(s, order[i]);
      if column == None {
        return Some(UndefinedColumn);
      }
    }
    return None;
  }
}
