/** SynthLang: its statements, and what parsing a token list gives. Positions are indices of
    tokens; every result says where it leaves the cursor, also when it is an error. */
module SynthLang {
  import opened Common
  import opened Lexing
  import opened Schema

  datatype Operator = Between | GreaterThan | LessThan | GreaterEqual | LessEqual

  datatype ConstraintItem = ConstraintItem(column: string, op: Operator, valueMin: real, valueMax: real)

  datatype Statement =
    | DefineType(typeName: string, columns: seq<ColumnDef>)
    | LoadData(typeName: string, filePath: string)
    | DefineConstraint(constraintName: string, typeName: string, items: seq<ConstraintItem>)
    | GenerateTable(tableName: string, typeName: string, constraintName: string, limit: int)

  datatype ParseError =
    | SyntaxError
    | UndefinedType
    | DuplicateColumnName
    | InvalidRange
    | InvalidEnum
    | InvalidSchema
    | UnsupportedInV1
    | InvalidArgument

  datatype Parsed<T> = Ok(value: T, next: nat) | Err(error: ParseError, next: nat)

  /** How the C library reads the numerals of the language. */
  datatype Numerals = Numerals(realOf: string -> real, intOf: string -> int)

  // ---------------------------------------------------------------- the cursor

  predicate In(ts: seq<Token>, i: nat) { ProperTokens(ts) && i < |ts| }

  predicate AtEnd(ts: seq<Token>, i: nat)
    requires In(ts, i)
  {
    ts[i].kind == TEof
  }

  predicate Is(ts: seq<Token>, i: nat, kind: TokenType)
    requires In(ts, i)
  {
    !AtEnd(ts, i) && ts[i].kind == kind
  }

  function Next(ts: seq<Token>, i: nat): (j: nat)
    requires In(ts, i)
    ensures In(ts, j) && i <= j <= i + 1 && (!AtEnd(ts, i) ==> i < j)
  {
    if AtEnd(ts, i) then i else i + 1
  }

  /** The token that moving on from `i` yields: at the end it is the one before. */
  function Taken(ts: seq<Token>, i: nat): Token
    requires In(ts, i) && i > 0
  {
    if AtEnd(ts, i) then ts[i - 1] else ts[i]
  }

  /** Past a token of this kind, if there is one. */
  function Skip(ts: seq<Token>, i: nat, kind: TokenType): (j: nat)
    requires In(ts, i)
    ensures In(ts, j) && i <= j <= i + 1 && (Is(ts, i, kind) <==> i < j)
  {
    if Is(ts, i, kind) then i + 1 else i
  }

  function Word(ts: seq<Token>, i: nat): (word: string)
    requires In(ts, i)
    ensures Is(ts, i, LIdent) ==> word != ""
  {
    ts[i].lexeme
  }

  predicate IsNumber(t: Token) { t.kind == LFloat || t.kind == LInt }

  /** The text of a string token without its quotes. */
  function Unquoted(ts: seq<Token>, i: nat): string
    requires In(ts, i) && Is(ts, i, LString)
  {
    ts[i].lexeme[1..|ts[i].lexeme| - 1]
  }

  // ---------------------------------------------------------------- columns

  /** A bound: an optional minus sign and a number. */
  function ParseBound(n: Numerals, ts: seq<Token>, i: nat): (r: Parsed<real>)
    requires In(ts, i) && i > 0
    ensures In(ts, r.next) && i <= r.next
  {
    var j := Skip(ts, i, SMinus);
    var t := Taken(ts, j);
    if !IsNumber(t) then Err(SyntaxError, Next(ts, j))
    else Ok(n.realOf(t.lexeme) * (if j > i then -1.0 else 1.0), Next(ts, j))
  }

  /** A range after its opening bracket; the comma and the closing bracket may be missing. */
  function ParseRange(n: Numerals, ts: seq<Token>, i: nat): (r: Parsed<(real, real)>)
    requires In(ts, i) && i > 0
    ensures In(ts, r.next) && i <= r.next
    ensures r.Ok? ==> r.value.0 < r.value.1
  {
    var lo := ParseBound(n, ts, i);
    if lo.Err? then Err(lo.error, lo.next)
    else
      var hi := ParseBound(n, ts, Skip(ts, lo.next, SComma));
      if hi.Err? then Err(hi.error, hi.next)
      else
        var end := Skip(ts, hi.next, SRbracket);
        if lo.value >= hi.value then Err(ParseError.InvalidRange, end) else Ok((lo.value, hi.value), end)
  }

  /** Strings separated by commas; `before` are the values before. */
  function ParseEnumValues(ts: seq<Token>, i: nat, before: seq<string>): (r: Parsed<seq<string>>)
    requires In(ts, i)
    ensures In(ts, r.next) && i <= r.next
    ensures r.Ok? ==> r.value != []
    decreases |ts| - i
  {
    if !Is(ts, i, LString) then Err(SyntaxError, i)
    else
      var values := before + [Unquoted(ts, i)];
      var j := Next(ts, i);
      if !Is(ts, j, SComma) then Ok(values, j)
      else
        var k := Next(ts, j);
        if AtEnd(ts, k) || Is(ts, k, SRparen) then Ok(values, k) else ParseEnumValues(ts, k, values)
  }

  datatype ColumnType = ColumnType(dataType: DataType, bounds: Option<(real, real)>, enumValues: seq<string>)

  function ParseNumericType(n: Numerals, ts: seq<Token>, i: nat, dataType: DataType): (r: Parsed<ColumnType>)
    requires In(ts, i) && i > 0
    ensures In(ts, r.next) && i <= r.next
  {
    if !Is(ts, i, SLbracket) then Ok(ColumnType(dataType, None, []), i)
    else
      var bounds := ParseRange(n, ts, Next(ts, i));
      if bounds.Err? then Err(bounds.error, bounds.next)
      else Ok(ColumnType(dataType, Some(bounds.value), []), bounds.next)
  }

  /** The type of a column; `i` is the position after the word that names it. */
  function ParseColumnType(n: Numerals, ts: seq<Token>, i: nat, kind: TokenType): (r: Parsed<ColumnType>)
    requires In(ts, i) && i > 0
    ensures In(ts, r.next) && i <= r.next
    ensures r.Ok? ==> TypeOk(r.value)
  {
    if kind == KFloat then ParseNumericType(n, ts, i, Float)
    else if kind == KInt then ParseNumericType(n, ts, i, Int)
    else if kind == KDatetime then Ok(ColumnType(Datetime, None, []), i)
    else if kind == KString then Ok(ColumnType(Text, None, []), i)
    else if kind == KEnum then
      var values := ParseEnumValues(ts, Skip(ts, i, SLparen), []);
      if values.Err? then Err(values.error, values.next)
      else Ok(ColumnType(Enum, None, values.value), Skip(ts, values.next, SRparen))
    else Err(SyntaxError, i)
  }

  predicate TypeOk(t: ColumnType) {
    && (t.bounds.Some? ==> t.bounds.value.0 < t.bounds.value.1)
    && (t.dataType == Enum <==> t.enumValues != [])
  }

  datatype Modifiers = Modifiers(notNull: bool, isOrder: bool, next: nat)

  /** NOT NULL and ORDER in any number and order; the NULL may be missing. */
  function ParseModifiers(ts: seq<Token>, i: nat, notNull: bool, isOrder: bool): (m: Modifiers)
    requires In(ts, i)
    ensures In(ts, m.next) && i <= m.next
    decreases |ts| - i
  {
    if Is(ts, i, KNot) then ParseModifiers(ts, Skip(ts, Next(ts, i), KNull), true, isOrder)
    else if Is(ts, i, KOrder) then ParseModifiers(ts, Next(ts, i), notNull, true)
    else Modifiers(notNull, isOrder, i)
  }

  function ColumnOf(name: string, t: ColumnType, m: Modifiers): (c: ColumnDef)
    ensures name != "" && TypeOk(t) ==> ColumnOk(c)
  {
    ColumnDef(name, t.dataType, m.notNull, m.isOrder,
              if t.bounds.Some? then Some(t.bounds.value.0) else None,
              if t.bounds.Some? then Some(t.bounds.value.1) else None, t.enumValues)
  }

  function ParseColumnDef(n: Numerals, ts: seq<Token>, i: nat): (r: Parsed<ColumnDef>)
    requires In(ts, i)
    ensures In(ts, r.next) && i <= r.next && (r.Ok? ==> i < r.next)
    ensures r.Ok? ==> ColumnOk(r.value)
  {
    hide ProperTokens, Is, Skip, Next, ColumnOf, ColumnOk, TypeOk;
    if !Is(ts, i, LIdent) then Err(SyntaxError, i)
    else
      var j := Next(ts, i);
      if !Is(ts, j, SColon) then Err(SyntaxError, j)
      else
        var k := Next(ts, j);
        if AtEnd(ts, k) then Err(SyntaxError, k)
        else
          var t := ParseColumnType(n, ts, Next(ts, k), ts[k].kind);
          if t.Err? then Err(t.error, t.next)
          else
            var m := ParseModifiers(ts, t.next, false, false);
            Ok(ColumnOf(Word(ts, i), t.value, m), m.next)
  }

  predicate HasColumn(columns: seq<ColumnDef>, name: string) {
    exists i :: 0 <= i < |columns| && columns[i].name == name
  }

  /** Column definitions separated by commas; `seen` are those before. */
  function ParseColumns(n: Numerals, ts: seq<Token>, i: nat, seen: seq<ColumnDef>): (r: Parsed<seq<ColumnDef>>)
    requires In(ts, i)
    ensures In(ts, r.next) && i <= r.next
    decreases |ts| - i
  {
    var column := ParseColumnDef(n, ts, i);
    if column.Err? then Err(column.error, column.next)
    else if HasColumn(seen, column.value.name) then Err(ParseError.DuplicateColumnName, column.next)
    else
      var seen' := seen + [column.value];
      if !Is(ts, column.next, SComma) then Ok(seen', column.next)
      else
        var j := Next(ts, column.next);
        if AtEnd(ts, j) || Is(ts, j, SRbrace) then Ok(seen', j) else ParseColumns(n, ts, j, seen')
  }

  // ---------------------------------------------------------------- statements

  /** What a statement leaves behind: the cursor and the type names declared so far. A type counts
      as declared from its name on, whether or not its definition is accepted. */
  datatype Outcome = Accepted(statement: Statement, next: nat, defined: seq<string>)
                   | Rejected(error: ParseError, next: nat, defined: seq<string>)

  /** A type definition; `i` is the position of TYPE. */
  function ParseDefineType(n: Numerals, ts: seq<Token>, i: nat, defined: seq<string>): (r: Outcome)
    requires In(ts, i)
    ensures In(ts, r.next) && i <= r.next
  {
    hide In, Is, AtEnd, Skip, Next;
    var a := Skip(ts, i, KType);
    if !Is(ts, a, LIdent) then Rejected(SyntaxError, a, defined)
    else
      var b, name := Next(ts, a), Word(ts, a);
      var defined' := defined + [name];
      if !Is(ts, b, SLbrace) then Rejected(SyntaxError, b, defined')
      else
        var c := Next(ts, b);
        if AtEnd(ts, c) then Rejected(SyntaxError, c, defined')
        else
          var columns := ParseColumns(n, ts, c, []);
          if columns.Err? then Rejected(columns.error, columns.next, defined')
          else if !Is(ts, columns.next, SRbrace) then Rejected(SyntaxError, columns.next, defined')
          else Accepted(DefineType(name, columns.value), Skip(ts, Next(ts, columns.next), SSemicolon), defined')
  }

  function ParseLoadData(ts: seq<Token>, i: nat, defined: seq<string>): (r: Outcome)
    requires In(ts, i)
    ensures In(ts, r.next) && i <= r.next && (Is(ts, i, KLoad) ==> i < r.next)
  {
    hide In, Is, AtEnd, Skip, Next;
    var a := Skip(ts, Skip(ts, Skip(ts, i, KLoad), KData), KInto);
    if !Is(ts, a, LIdent) then Rejected(SyntaxError, a, defined)
    else
      var b := Next(ts, a);
      if Word(ts, a) !in defined then Rejected(UndefinedType, b, defined)
      else
        var c := Skip(ts, b, KFrom);
        if !Is(ts, c, LString) then Rejected(SyntaxError, c, defined)
        else Accepted(LoadData(Word(ts, a), Unquoted(ts, c)), Skip(ts, Next(ts, c), SSemicolon), defined)
  }

  /** A number with the minus sign, if any, after it, as the comparisons read it. */
  function ParseOperand(n: Numerals, ts: seq<Token>, i: nat): (r: Parsed<real>)
    requires In(ts, i) && i > 0
    ensures In(ts, r.next) && i <= r.next
  {
    var t := Taken(ts, i);
    var j := Next(ts, i);
    var k := Skip(ts, j, SMinus);
    if !IsNumber(t) then Err(SyntaxError, k) else Ok(n.realOf(t.lexeme) * (if k > j then -1.0 else 1.0), k)
  }

  function OperatorOf(kind: TokenType): Option<Operator> {
    if kind == KBetween then Some(Between)
    else if kind == SGt then Some(GreaterThan)
    else if kind == SLt then Some(LessThan)
    else if kind == SGe then Some(GreaterEqual)
    else if kind == SLe then Some(LessEqual)
    else None
  }

  /** The bounds of BETWEEN; the AND may be missing. */
  function ParseBetween(n: Numerals, ts: seq<Token>, i: nat, column: string): (r: Parsed<ConstraintItem>)
    requires In(ts, i) && i > 0
    ensures In(ts, r.next) && i <= r.next
  {
    var lo := ParseBound(n, ts, i);
    if lo.Err? then Err(lo.error, lo.next)
    else
      var hi := ParseBound(n, ts, Skip(ts, lo.next, KAnd));
      if hi.Err? then Err(hi.error, hi.next) else Ok(ConstraintItem(column, Between, lo.value, hi.value), hi.next)
  }

  /** The operand of a comparison becomes the lower or the upper value. */
  function ParseComparison(n: Numerals, ts: seq<Token>, i: nat, column: string, op: Operator): (r: Parsed<ConstraintItem>)
    requires In(ts, i) && i > 0
    ensures In(ts, r.next) && i <= r.next
  {
    var x := ParseOperand(n, ts, i);
    if x.Err? then Err(x.error, x.next)
    else if op == GreaterThan || op == GreaterEqual then Ok(ConstraintItem(column, op, x.value, 0.0), x.next)
    else Ok(ConstraintItem(column, op, 0.0, x.value), x.next)
  }

  function ParseConstraintItem(n: Numerals, ts: seq<Token>, i: nat): (r: Parsed<ConstraintItem>)
    requires In(ts, i)
    ensures In(ts, r.next) && i <= r.next && (r.Ok? ==> i < r.next)
  {
    if !Is(ts, i, LIdent) then Err(SyntaxError, i)
    else
      var column, j := ts[i].lexeme, Next(ts, i);
      var op := OperatorOf(ts[j].kind);
      if op == None then Err(SyntaxError, j)
      else if op == Some(Between) then ParseBetween(n, ts, Next(ts, j), column)
      else ParseComparison(n, ts, Next(ts, j), column, op.value)
  }

  predicate Conditional(ts: seq<Token>, i: nat)
    requires In(ts, i)
  {
    Is(ts, i, KDuring) || Is(ts, i, KWhen)
  }

  predicate Aggregating(ts: seq<Token>, i: nat)
    requires In(ts, i)
  {
    Is(ts, i, KAvg) || Is(ts, i, KOver)
  }

  /** Constraint items separated by commas; forms of later versions of the language are refused. */
  function ParseItems(n: Numerals, ts: seq<Token>, i: nat, before: seq<ConstraintItem>): (r: Parsed<seq<ConstraintItem>>)
    requires In(ts, i)
    ensures In(ts, r.next) && i <= r.next
    decreases |ts| - i
  {
    if Conditional(ts, i) || Aggregating(ts, i) then Err(UnsupportedInV1, i)
    else
      var item := ParseConstraintItem(n, ts, i);
      if item.Err? then Err(item.error, item.next)
      else
        var items := before + [item.value];
        if !Is(ts, item.next, SComma) then Ok(items, item.next)
        else
          var j := Next(ts, item.next);
          if Conditional(ts, j) then Err(UnsupportedInV1, j)
          else if AtEnd(ts, j) || Is(ts, j, SRbrace) then Ok(items, j)
          else ParseItems(n, ts, j, items)
  }

  /** A constraint definition; `i` is the position of CONSTRAINT. */
  function ParseDefineConstraint(n: Numerals, ts: seq<Token>, i: nat, defined: seq<string>): (r: Outcome)
    requires In(ts, i)
    ensures In(ts, r.next) && i <= r.next
  {
    hide In, Is, AtEnd, Skip, Next;
    var a := Skip(ts, i, KConstraint);
    if !Is(ts, a, LIdent) then Rejected(SyntaxError, a, defined)
    else
      var b := Skip(ts, Next(ts, a), KOn);
      if !Is(ts, b, LIdent) then Rejected(SyntaxError, b, defined)
      else
        var c := Next(ts, b);
        if Word(ts, b) !in defined then Rejected(UndefinedType, c, defined)
        else
          var items := ParseItems(n, ts, Skip(ts, c, SLbrace), []);
          if items.Err? then Rejected(items.error, items.next, defined)
          else if Conditional(ts, items.next) || Aggregating(ts, items.next) then Rejected(UnsupportedInV1, items.next, defined)
          else if !Is(ts, items.next, SRbrace) then Rejected(SyntaxError, items.next, defined)
          else Accepted(DefineConstraint(Word(ts, a), Word(ts, b), items.value),
                        Skip(ts, Next(ts, items.next), SSemicolon), defined)
  }

  function ParseLimit(n: Numerals, ts: seq<Token>, i: nat): (r: Parsed<int>)
    requires In(ts, i) && i > 0
    ensures In(ts, r.next) && i <= r.next && (r.Ok? ==> r.value >= 0)
  {
    var j := Skip(ts, i, KLimit);
    var t := Taken(ts, j);
    if t.kind != LInt then Err(SyntaxError, Next(ts, j))
    else if n.intOf(t.lexeme) < 0 then Err(InvalidArgument, Next(ts, j))
    else Ok(n.intOf(t.lexeme), Next(ts, j))
  }

  /** WITH, the word CONSTRAINTS or any other, the constraint name and the limit. */
  function ParseConstraintsAndLimit(n: Numerals, ts: seq<Token>, i: nat): (r: Parsed<(string, int)>)
    requires In(ts, i)
    ensures In(ts, r.next) && i <= r.next && (r.Ok? ==> r.value.1 >= 0)
  {
    var c := Skip(ts, i, KWith);
    if !Is(ts, c, KConstraint) && !Is(ts, c, LIdent) then Err(SyntaxError, c)
    else
      var d := Next(ts, c);
      if !Is(ts, d, LIdent) then Err(SyntaxError, d)
      else
        var limit := ParseLimit(n, ts, Next(ts, d));
        if limit.Err? then Err(limit.error, limit.next) else Ok((Word(ts, d), limit.value), limit.next)
  }

  function ParseGenerateTable(n: Numerals, ts: seq<Token>, i: nat, defined: seq<string>): (r: Outcome)
    requires In(ts, i)
    ensures In(ts, r.next) && i <= r.next && (Is(ts, i, KGenerate) ==> i < r.next)
  {
    hide In, Is, AtEnd, Skip, Next;
    var a := Skip(ts, Skip(ts, i, KGenerate), KTable);
    if !Is(ts, a, LIdent) then Rejected(SyntaxError, a, defined)
    else
      var b := Skip(ts, Next(ts, a), KFrom);
      if !Is(ts, b, LIdent) then Rejected(SyntaxError, b, defined)
      else if Word(ts, b) !in defined then Rejected(UndefinedType, Next(ts, b), defined)
      else
        var tail := ParseConstraintsAndLimit(n, ts, Next(ts, b));
        if tail.Err? then Rejected(tail.error, tail.next, defined)
        else Accepted(GenerateTable(Word(ts, a), Word(ts, b), tail.value.0, tail.value.1),
                      Skip(ts, tail.next, SSemicolon), defined)
  }

  predicate StartsStatement(ts: seq<Token>, i: nat)
    requires In(ts, i)
  {
    Is(ts, i, KDefine) || Is(ts, i, KLoad) || Is(ts, i, KGenerate)
  }

  /** A statement consumes a token, or is rejected where it is and no statement starts there. */
  function ParseStatement(n: Numerals, ts: seq<Token>, i: nat, defined: seq<string>): (r: Outcome)
    requires In(ts, i)
    ensures In(ts, r.next) && i <= r.next
    ensures StartsStatement(ts, i) ==> i < r.next
    ensures !StartsStatement(ts, i) ==> r == Rejected(SyntaxError, i, defined)
  {
    hide In, AtEnd, ProperTokens;
    if Is(ts, i, KDefine) then
      var j := Next(ts, i);
      if Is(ts, j, KType) then ParseDefineType(n, ts, j, defined)
      else if Is(ts, j, KConstraint) then ParseDefineConstraint(n, ts, j, defined)
      else Rejected(SyntaxError, j, defined)
    else if Is(ts, i, KLoad) then ParseLoadData(ts, i, defined)
    else if Is(ts, i, KGenerate) then ParseGenerateTable(n, ts, i, defined)
    else Rejected(SyntaxError, i, defined)
  }

  /** The next place where a statement may start, or the end. */
  function Recover(ts: seq<Token>, i: nat): (j: nat)
    requires In(ts, i)
    ensures In(ts, j) && i <= j && (AtEnd(ts, j) || StartsStatement(ts, j))
    decreases |ts| - i
  {
    hide ProperTokens, StartsStatement;
    if AtEnd(ts, i) || StartsStatement(ts, i) then i else Recover(ts, Next(ts, i))
  }

  lemma {:induction false} RecoverIsFirst(ts: seq<Token>, i: nat, k: nat)
    requires In(ts, i) && i <= k < Recover(ts, i)
    ensures In(ts, k) && !StartsStatement(ts, k) && !AtEnd(ts, k)
    decreases |ts| - i
  {
    hide StartsStatement, ProperTokens;
    if i < k {
      RecoverIsFirst(ts, Next(ts, i), k);
    }
  }

  datatype Program = Program(statements: seq<Statement>, errors: seq<ParseError>)

  /** How the parser reports an error: most of them as syntax errors. */
  function Reported(e: ParseError): ParseError {
    if e == UnsupportedInV1 || e == UndefinedType || e == ParseError.DuplicateColumnName then e else SyntaxError
  }

  /** Everything from token `i` on; after an error parsing goes on at the next statement. */
  function ParseFrom(n: Numerals, ts: seq<Token>, i: nat, defined: seq<string>, p: Program): Program
    requires In(ts, i)
    decreases |ts| - i
  {
    if AtEnd(ts, i) then p
    else
      match ParseStatement(n, ts, i, defined)
      case Accepted(statement, next, defined') =>
        ParseFrom(n, ts, next, defined', p.(statements := p.statements + [statement]))
      case Rejected(error, next, defined') =>
        ParseFrom(n, ts, Recover(ts, next), defined', p.(errors := p.errors + [Reported(error)]))
  }

  function Added(p: Program, r: Outcome): Program {
    if r.Accepted? then p.(statements := p.statements + [r.statement]) else p.(errors := p.errors + [Reported(r.error)])
  }

  /** Each pass consumes at least one token and stays among the tokens. */
  lemma PassConsumes(n: Numerals, ts: seq<Token>, i: nat, defined: seq<string>, p: Program)
    requires In(ts, i) && !AtEnd(ts, i)
    ensures var r := ParseStatement(n, ts, i, defined);
            var next := if r.Accepted? then r.next else Recover(ts, r.next);
            && i < next && In(ts, next)
            && ParseFrom(n, ts, i, defined, p) == ParseFrom(n, ts, next, r.defined, Added(p, r))
  {
    hide ProperTokens, ParseStatement;
  }

  lemma EndsAtEnd(n: Numerals, ts: seq<Token>, i: nat, defined: seq<string>, p: Program)
    requires In(ts, i) && AtEnd(ts, i)
    ensures ParseFrom(n, ts, i, defined, p) == p
  {
  }

  function ParseTokens(n: Numerals, ts: seq<Token>): Program
    requires ProperTokens(ts)
  {
    ParseFrom(n, ts, 0, [], Program([], []))
  }
}
