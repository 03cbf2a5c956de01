/** The parser as the program has it: a cursor over the tokens, the type names seen and the errors
    so far. Every method is proved to give what the description of the language says. */
module Parser {
  import opened Common
  import opened Lexing
  import opened Schema
  import opened SynthLang
  import Lexer

  class Parser {
    const n: Numerals
    var definedTypes: seq<string>
    var tokens: seq<Token>
    var current: nat
    var errors: seq<ParseError>

    constructor (n: Numerals)
      ensures this.n == n
    {
      this.n := n;
      definedTypes, tokens, current, errors := [], [], 0, [];
    }

    /** The cursor is on a token, at the latest on the end token. */
    predicate Valid() reads this { In(tokens, current) }

    function Peek(): Token
      requires Valid()
      reads this
    {
      tokens[current]
    }

    function Previous(): Token
      requires Valid() && current > 0
      reads this
    {
      tokens[current - 1]
    }

    predicate IsAtEnd()
      requires Valid()
      reads this
      ensures IsAtEnd() == AtEnd(tokens, current)
    {
      current >= |tokens| || tokens[current].kind == TEof
    }

    predicate Check(kind: TokenType)
      requires Valid()
      reads this
      ensures Check(kind) == Is(tokens, current, kind)
    {
      !IsAtEnd() && Peek().kind == kind
    }

    /** Moves on unless at the end, and gives the token before the cursor; so at the end of the
        tokens it may only be used when there is one. */
    method Advance() returns (t: Token)
      requires Valid() && (IsAtEnd() ==> current > 0)
      modifies this`current
      ensures Valid() && current == Next(tokens, old(current)) && current > 0
      ensures t == tokens[if AtEnd(tokens, old(current)) then old(current) - 1 else old(current)]
    {
      if !IsAtEnd() {
        current := current + 1;
      }
      t := Previous();
    }

    method Match(kind: TokenType) returns (b: bool)
      requires Valid()
      modifies this`current
      ensures Valid() && current == Skip(tokens, old(current), kind) && (b <==> current > old(current))
    {
      b := Check(kind);
      if b {
        var _ := Advance();
      }
    }

    method Expect(kind: TokenType) returns (t: Option<Token>)
      requires Valid()
      modifies this`current
      ensures Valid() && current == Skip(tokens, old(current), kind)
      ensures t == if Is(tokens, old(current), kind) then Some(tokens[old(current)]) else None
      ensures current == if Is(tokens, old(current), kind) then Next(tokens, old(current)) else old(current)
      ensures t.Some? ==> current > 0 && t.value.lexeme == Word(tokens, old(current))
    {
      if Check(kind) {
        var token := Advance();
        return Some(token);
      }
      return None;
    }

    /** A string token without its quotes. */
    method ExpectString() returns (text: Option<string>)
      requires Valid()
      modifies this`current
      ensures Valid() && current == if Is(tokens, old(current), LString) then Next(tokens, old(current)) else old(current)
      ensures text == if Is(tokens, old(current), LString) then Some(Unquoted(tokens, old(current))) else None
    {
      var token := Expect(LString);
      if token == None {
        return None;
      }
      var lexeme := token.value.lexeme;
      text := Some(lexeme[1..|lexeme| - 1]);
    }

    // -------------------------------------------------------------- columns

    method ReadBound() returns (r: Parsed<real>)
      requires Valid() && current > 0
      modifies this`current
      ensures Valid() && r == ParseBound(n, tokens, old(current)) && current == r.next
    {
      hide In, Is, Skip;
      var neg := Match(SMinus);
      var token := Advance();
      if token.kind != LFloat && token.kind != LInt {
        return Err(SyntaxError, current);
      }
      r := Ok(n.realOf(token.lexeme) * (if neg then -1.0 else 1.0), current);
    }

    method ReadRange() returns (r: Parsed<(real, real)>)
      requires Valid() && current > 0
      modifies this`current
      ensures Valid() && r == ParseRange(n, tokens, old(current)) && current == r.next
    {
      hide In, Is, AtEnd, Skip, ParseBound;
      var lo := ReadBound();
      if lo.Err? {
        return Err(lo.error, current);
      }
      var _ := Expect(SComma);
      var hi := ReadBound();
      if hi.Err? {
        return Err(hi.error, current);
      }
      var _ := Expect(SRbracket);
      if lo.value >= hi.value {
        return Err(ParseError.InvalidRange, current);
      }
      r := Ok((lo.value, hi.value), current);
    }

    method ReadEnumValues() returns (r: Parsed<seq<string>>)
      requires Valid()
      modifies this`current
      ensures Valid() && r == ParseEnumValues(tokens, old(current), []) && current == r.next
    {
      var values: seq<string> := [];
      while true
        invariant Valid() && ParseEnumValues(tokens, current, values) == ParseEnumValues(tokens, old(current), [])
        decreases |tokens| - current
      {
        var value := ExpectString();
        if value == None {
          return Err(SyntaxError, current);
        }
        values := values + [value.value];
        if !Check(SComma) {
          break;
        }
        var _ := Advance();
        if IsAtEnd() || Check(SRparen) {
          break;
        }
      }
      r := Ok(values, current);
    }

    method ReadNumericType(dataType: DataType) returns (r: Parsed<ColumnType>)
      requires Valid() && current > 0
      modifies this`current
      ensures Valid() && r == ParseNumericType(n, tokens, old(current), dataType) && current == r.next
    {
      hide In, AtEnd, ParseRange, ProperTokens;
      if !Check(SLbracket) {
        return Ok(ColumnType(dataType, None, []), current);
      }
      var _ := Advance();
      var bounds := ReadRange();
      if bounds.Err? {
        return Err(bounds.error, current);
      }
      r := Ok(ColumnType(dataType, Some(bounds.value), []), current);
    }

    method ReadColumnType(kind: TokenType) returns (r: Parsed<ColumnType>)
      requires Valid() && current > 0
      modifies this`current
      ensures Valid() && r == ParseColumnType(n, tokens, old(current), kind) && current == r.next
    {
      hide In, Is, AtEnd, Skip, ParseNumericType, ParseEnumValues;
      if kind == KFloat {
        r := ReadNumericType(Float);
      } else if kind == KInt {
        r := ReadNumericType(Int);
      } else if kind == KDatetime {
        r := Ok(ColumnType(Datetime, None, []), current);
      } else if kind == KString {
        r := Ok(ColumnType(Text, None, []), current);
      } else if kind == KEnum {
        var _ := Expect(SLparen);
        var values := ReadEnumValues();
        if values.Err? {
          return Err(values.error, current);
        }
        var _ := Expect(SRparen);
        r := Ok(ColumnType(Enum, None, values.value), current);
      } else {
        r := Err(SyntaxError, current);
      }
    }

    method ReadModifiers() returns (m: Modifiers)
      requires Valid()
      modifies this`current
      ensures Valid() && m == ParseModifiers(tokens, old(current), false, false) && current == m.next
    {
      hide ProperTokens;
      var notNull, isOrder := false, false;
      while !IsAtEnd()
        invariant Valid()
        invariant ParseModifiers(tokens, current, notNull, isOrder) == ParseModifiers(tokens, old(current), false, false)
        decreases |tokens| - current
      {
        if Check(KNot) {
          var _ := Advance();
          var _ := Expect(KNull);
          notNull := true;
        } else if Check(KOrder) {
          var _ := Advance();
          isOrder := true;
        } else {
          break;
        }
      }
      m := Modifiers(notNull, isOrder, current);
    }

    method ReadColumnDef() returns (r: Parsed<ColumnDef>)
      requires Valid()
      modifies this`current
      ensures Valid() && r == ParseColumnDef(n, tokens, old(current)) && current == r.next
    {
      hide ProperTokens, ParseColumnType, ParseModifiers, Skip, ColumnOf, TypeOk, ColumnOk;
      var name := Expect(LIdent);
      if name == None {
        return Err(SyntaxError, current);
      }
      var colon := Expect(SColon);
      if colon == None {
        return Err(SyntaxError, current);
      }
      if IsAtEnd() {
        return Err(SyntaxError, current);
      }
      var word := Advance();
      var t := ReadColumnType(word.kind);
      if t.Err? {
        return Err(t.error, current);
      }
      var m := ReadModifiers();
      r := Ok(ColumnOf(name.value.lexeme, t.value, m), current);
    }

    method ReadColumns() returns (r: Parsed<seq<ColumnDef>>)
      requires Valid()
      modifies this`current
      ensures Valid() && r == ParseColumns(n, tokens, old(current), []) && current == r.next
    {
      NoColumn();
      hide ProperTokens, ParseColumnDef, ColumnOk, HasColumn;
      var seen: set<string> := {};
      var columns: seq<ColumnDef> := [];
      while true
        invariant Valid() && ParseColumns(n, tokens, current, columns) == ParseColumns(n, tokens, old(current), [])
        invariant forall name :: name in seen <==> HasColumn(columns, name)
        decreases |tokens| - current
      {
        var column := ReadColumnDef();
        if column.Err? {
          return Err(column.error, current);
        }
        if column.value.name in seen {
          return Err(ParseError.DuplicateColumnName, current);
        }
        ghost var before := columns;
        seen := seen + {column.value.name};
        columns := columns + [column.value];
        OneMoreColumn(before, column.value);
        if !Check(SComma) {
          break;
        }
        var _ := Advance();
        if IsAtEnd() || Check(SRbrace) {
          break;
        }
      }
      r := Ok(columns, current);
    }

    lemma NoColumn()
      ensures forall name :: !HasColumn([], name)
    {
    }

    lemma OneMoreColumn(columns: seq<ColumnDef>, c: ColumnDef)
      ensures forall name :: HasColumn(columns + [c], name) <==> HasColumn(columns, name) || name == c.name
    {
      var more := columns + [c];
      forall name ensures HasColumn(more, name) <==> HasColumn(columns, name) || name == c.name {
        assert more[|columns|] == c;
        if HasColumn(columns, name) {
          var i :| 0 <= i < |columns| && columns[i].name == name;
          assert more[i] == columns[i];
        }
      }
    }

    // -------------------------------------------------------------- statements

    lemma NothingAtEnd(kind: TokenType)
      requires Valid() && AtEnd(tokens, current)
      ensures !Is(tokens, current, kind)
    {
    }

    method ReadDefineType() returns (r: Outcome)
      requires Valid()
      modifies this`current, this`definedTypes
      ensures Valid() && r == ParseDefineType(n, tokens, old(current), old(definedTypes))
      ensures current == r.next && definedTypes == r.defined
    {
      hide In, Is, AtEnd, Next, ParseColumns, ColumnOk, Skip, Word;
      var _ := Expect(KType);
      if IsAtEnd() {
        NothingAtEnd(LIdent);
        return Rejected(SyntaxError, current, definedTypes);
      }
      var name := Expect(LIdent);
      if name == None {
        return Rejected(SyntaxError, current, definedTypes);
      }
      definedTypes := definedTypes + [name.value.lexeme];
      var lbrace := Expect(SLbrace);
      if lbrace == None {
        return Rejected(SyntaxError, current, definedTypes);
      }
      if IsAtEnd() {
        return Rejected(SyntaxError, current, definedTypes);
      }
      var columns := ReadColumns();
      if columns.Err? {
        return Rejected(columns.error, current, definedTypes);
      }
      var rbrace := Expect(SRbrace);
      if rbrace == None {
        return Rejected(SyntaxError, current, definedTypes);
      }
      var _ := Expect(SSemicolon);
      r := Accepted(DefineType(name.value.lexeme, columns.value), current, definedTypes);
    }

    method ReadLoadData() returns (r: Outcome)
      requires Valid()
      modifies this`current
      ensures Valid() && r == ParseLoadData(tokens, old(current), definedTypes)
      ensures current == r.next && definedTypes == r.defined
    {
      hide In, Is, AtEnd, Next, Skip, Word, Unquoted;
      var _ := Expect(KLoad);
      var _ := Expect(KData);
      var _ := Expect(KInto);
      var typeName := Expect(LIdent);
      if typeName == None {
        return Rejected(SyntaxError, current, definedTypes);
      }
      if typeName.value.lexeme !in definedTypes {
        return Rejected(UndefinedType, current, definedTypes);
      }
      var _ := Expect(KFrom);
      var path := ExpectString();
      if path == None {
        return Rejected(SyntaxError, current, definedTypes);
      }
      var _ := Expect(SSemicolon);
      r := Accepted(LoadData(typeName.value.lexeme, path.value), current, definedTypes);
    }

    method ReadOperand() returns (r: Parsed<real>)
      requires Valid() && current > 0
      modifies this`current
      ensures Valid() && r == ParseOperand(n, tokens, old(current)) && current == r.next
    {
      hide In, Is, Skip;
      var token := Advance();
      var neg := Match(SMinus);
      if token.kind != LFloat && token.kind != LInt {
        return Err(SyntaxError, current);
      }
      r := Ok(n.realOf(token.lexeme) * (if neg then -1.0 else 1.0), current);
    }

    method ReadConstraintItem() returns (r: Parsed<ConstraintItem>)
      requires Valid()
      modifies this`current
      ensures Valid() && r == ParseConstraintItem(n, tokens, old(current)) && current == r.next
    {
      hide ProperTokens, ParseBetween, ParseComparison, Skip;
      var name := Expect(LIdent);
      if name == None {
        return Err(SyntaxError, current);
      }
      var column := name.value.lexeme;
      var op := OperatorOf(Peek().kind);
      if op == None {
        return Err(SyntaxError, current);
      }
      var _ := Advance();
      if op == Some(Between) {
        r := ReadBetween(column);
      } else {
        r := ReadComparison(column, op.value);
      }
    }

    method ReadBetween(column: string) returns (r: Parsed<ConstraintItem>)
      requires Valid() && current > 0
      modifies this`current
      ensures Valid() && r == ParseBetween(n, tokens, old(current), column) && current == r.next
    {
      hide In, Is, AtEnd, Skip, ParseBound;
      var lo := ReadBound();
      if lo.Err? {
        return Err(lo.error, current);
      }
      var _ := Expect(KAnd);
      var hi := ReadBound();
      if hi.Err? {
        return Err(hi.error, current);
      }
      r := Ok(ConstraintItem(column, Between, lo.value, hi.value), current);
    }

    method ReadComparison(column: string, op: Operator) returns (r: Parsed<ConstraintItem>)
      requires Valid() && current > 0
      modifies this`current
      ensures Valid() && r == ParseComparison(n, tokens, old(current), column, op) && current == r.next
    {
      hide In, Is, AtEnd, ParseOperand;
      var x := ReadOperand();
      if x.Err? {
        return Err(x.error, current);
      }
      if op == GreaterThan || op == GreaterEqual {
        r := Ok(ConstraintItem(column, op, x.value, 0.0), current);
      } else {
        r := Ok(ConstraintItem(column, op, 0.0, x.value), current);
      }
    }

    method ReadItems() returns (r: Parsed<seq<ConstraintItem>>)
      requires Valid()
      modifies this`current
      ensures Valid() && r == ParseItems(n, tokens, old(current), []) && current == r.next
    {
      hide ProperTokens, ParseConstraintItem;
      var items: seq<ConstraintItem> := [];
      while true
        invariant Valid() && ParseItems(n, tokens, current, items) == ParseItems(n, tokens, old(current), [])
        decreases |tokens| - current
      {
        if Check(KDuring) || Check(KWhen) || Check(KAvg) || Check(KOver) {
          return Err(UnsupportedInV1, current);
        }
        var item := ReadConstraintItem();
        if item.Err? {
          return Err(item.error, current);
        }
        items := items + [item.value];
        if !Check(SComma) {
          break;
        }
        var _ := Advance();
        if Check(KDuring) || Check(KWhen) {
          return Err(UnsupportedInV1, current);
        }
        if IsAtEnd() || Check(SRbrace) {
          break;
        }
      }
      r := Ok(items, current);
    }

    method ReadDefineConstraint() returns (r: Outcome)
      requires Valid()
      modifies this`current
      ensures Valid() && r == ParseDefineConstraint(n, tokens, old(current), definedTypes)
      ensures current == r.next && definedTypes == r.defined
    {
      hide In, Is, AtEnd, Next, Skip, Word, ParseItems;
      var _ := Expect(KConstraint);
      var name := Expect(LIdent);
      if name == None {
        return Rejected(SyntaxError, current, definedTypes);
      }
      var _ := Expect(KOn);
      var typeName := Expect(LIdent);
      if typeName == None {
        return Rejected(SyntaxError, current, definedTypes);
      }
      if typeName.value.lexeme !in definedTypes {
        return Rejected(UndefinedType, current, definedTypes);
      }
      var _ := Expect(SLbrace);
      var items := ReadItems();
      if items.Err? {
        return Rejected(items.error, current, definedTypes);
      }
      if Check(KDuring) || Check(KWhen) || Check(KAvg) || Check(KOver) {
        return Rejected(UnsupportedInV1, current, definedTypes);
      }
      var rbrace := Expect(SRbrace);
      if rbrace == None {
        return Rejected(SyntaxError, current, definedTypes);
      }
      var _ := Expect(SSemicolon);
      r := Accepted(DefineConstraint(name.value.lexeme, typeName.value.lexeme, items.value), current, definedTypes);
    }

    method ReadGenerateTable() returns (r: Outcome)
      requires Valid()
      modifies this`current
      ensures Valid() && r == ParseGenerateTable(n, tokens, old(current), definedTypes)
      ensures current == r.next && definedTypes == r.defined
    {
      hide In, Is, AtEnd, Next, Skip, Word, ParseConstraintsAndLimit;
      var _ := Expect(KGenerate);
      var _ := Expect(KTable);
      var name := Expect(LIdent);
      if name == None {
        return Rejected(SyntaxError, current, definedTypes);
      }
      var _ := Expect(KFrom);
      var typeName := Expect(LIdent);
      if typeName == None {
        return Rejected(SyntaxError, current, definedTypes);
      }
      if typeName.value.lexeme !in definedTypes {
        return Rejected(UndefinedType, current, definedTypes);
      }
      var tail := ReadConstraintsAndLimit();
      if tail.Err? {
        return Rejected(tail.error, current, definedTypes);
      }
      var _ := Expect(SSemicolon);
      r := Accepted(GenerateTable(name.value.lexeme, typeName.value.lexeme, tail.value.0, tail.value.1), current, definedTypes);
    }

    method ReadConstraintsAndLimit() returns (r: Parsed<(string, int)>)
      requires Valid()
      modifies this`current
      ensures Valid() && r == ParseConstraintsAndLimit(n, tokens, old(current)) && current == r.next
    {
      hide In, Next, Skip, Word, ParseLimit;
      var _ := Expect(KWith);
      if !Check(KConstraint) && !Check(LIdent) {
        return Err(SyntaxError, current);
      }
      var _ := Advance();
      var name := Expect(LIdent);
      if name == None {
        return Err(SyntaxError, current);
      }
      var limit := ReadLimit();
      if limit.Err? {
        return Err(limit.error, current);
      }
      r := Ok((name.value.lexeme, limit.value), current);
    }

    method ReadLimit() returns (r: Parsed<int>)
      requires Valid() && current > 0
      modifies this`current
      ensures Valid() && r == ParseLimit(n, tokens, old(current)) && current == r.next
    {
      hide In, Is, Skip;
      var _ := Expect(KLimit);
      var limit := Advance();
      if limit.kind != LInt {
        return Err(SyntaxError, current);
      }
      var value := n.intOf(limit.lexeme);
      if value < 0 {
        return Err(InvalidArgument, current);
      }
      r := Ok(value, current);
    }

    method ReadStatement() returns (r: Outcome)
      requires Valid()
      modifies this`current, this`definedTypes
      ensures Valid() && r == ParseStatement(n, tokens, old(current), old(definedTypes))
      ensures current == r.next && definedTypes == r.defined
    {
      hide ProperTokens, ParseDefineType, ParseDefineConstraint, ParseLoadData, ParseGenerateTable;
      if Check(KDefine) {
        var _ := Advance();
        if Check(KType) {
          r := ReadDefineType();
        } else if Check(KConstraint) {
          r := ReadDefineConstraint();
        } else {
          r := Rejected(SyntaxError, current, definedTypes);
        }
      } else if Check(KLoad) {
        r := ReadLoadData();
      } else if Check(KGenerate) {
        r := ReadGenerateTable();
      } else {
        r := Rejected(SyntaxError, current, definedTypes);
      }
    }

    method SkipToStatement()
      requires Valid()
      modifies this`current
      ensures Valid() && current == Recover(tokens, old(current))
    {
      hide ProperTokens;
      while !IsAtEnd() && !Check(KDefine) && !Check(KLoad) && !Check(KGenerate)
        invariant Valid() && Recover(tokens, current) == Recover(tokens, old(current))
        decreases |tokens| - current
      {
        var _ := Advance();
      }
    }

    /** Each pass of the loop consumes a token: a statement does, or else recovery does. */
    method ParseAll() returns (p: Program)
      requires In(tokens, 0)
      modifies this`current, this`definedTypes, this`errors
      ensures p == ParseTokens(n, tokens)
    {
      hide ParseStatement, ParseFrom, Recover, ProperTokens;
      current, errors, definedTypes := 0, [], [];
      var statements: seq<Statement> := [];
      while !IsAtEnd()
        invariant Valid()
        invariant ParseFrom(n, tokens, current, definedTypes, Program(statements, errors)) == ParseTokens(n, tokens)
        decreases |tokens| - current
      {
        PassConsumes(n, tokens, current, definedTypes, Program(statements, errors));
        var r := ReadStatement();
        if r.Accepted? {
          statements := statements + [r.statement];
        } else {
          errors := errors + [Reported(r.error)];
          SkipToStatement();
        }
      }
      p := Program(statements, errors);
      EndsAtEnd(n, tokens, current, definedTypes, p);
    }

    /** Parses a source text; when it has no token list the only result is one syntax error. */
    method Parse(source: string) returns (p: Program)
      modifies this
      ensures (exists ts :: Tokens(source, 0, ts)) ==>
                exists ts :: Tokens(source, 0, ts) && ProperTokens(ts) && p == ParseTokens(n, ts)
      ensures (forall ts :: !Tokens(source, 0, ts)) ==> p == Program([], [SyntaxError])
    {
      var lexer := new Lexer.Lexer(source);
      var lexed := lexer.Tokenize();
      if lexed.LexFailed? {
        return Program([], [SyntaxError]);
      }
      tokens := lexed.tokens;
      p := ParseAll();
    }
  }
}
