/** Writing programs as tokens, and that the parser reads them back: any token list that spells a
    program, wherever its tokens stand in the text, parses to that program without errors. */
module SynthLangPrinting {
  import opened Common
  import opened Lexing
  import opened Schema
  import opened SynthLang

  /** A token without its place; the text matters for literals only. */
  datatype Cell = Cell(kind: TokenType, text: string)

  /** How numbers are written. */
  datatype Writing = Writing(realCell: real -> Cell, intText: int -> string)

  predicate Reads(n: Numerals, w: Writing, x: real) {
    var c := w.realCell(x);
    (c.kind == LInt || c.kind == LFloat) && n.realOf(c.text) == x
  }

  function Fixed(kind: TokenType): Cell { Cell(kind, "") }
  function Name(s: string): Cell { Cell(LIdent, s) }
  function Quoted(s: string): Cell { Cell(LString, "'" + s + "'") }

  // ---------------------------------------------------------------- writing

  function SpellEnumValues(values: seq<string>): seq<Cell>
    requires values != []
  {
    if |values| == 1 then [Quoted(values[0])]
    else [Quoted(values[0]), Fixed(SComma)] + SpellEnumValues(values[1..])
  }

  function SpellType(w: Writing, c: ColumnDef): seq<Cell> {
    match c.dataType
    case Float => [Fixed(KFloat)] + SpellRange(w, c)
    case Int => [Fixed(KInt)] + SpellRange(w, c)
    case Datetime => [Fixed(KDatetime)]
    case Text => [Fixed(KString)]
    case Enum =>
      if c.enumValues == [] then [Fixed(KEnum)]
      else [Fixed(KEnum), Fixed(SLparen)] + (SpellEnumValues(c.enumValues) + [Fixed(SRparen)])
  }

  function SpellRange(w: Writing, c: ColumnDef): seq<Cell> {
    if c.rangeMin.Some? && c.rangeMax.Some? then
      [Fixed(SLbracket), w.realCell(c.rangeMin.value), Fixed(SComma), w.realCell(c.rangeMax.value), Fixed(SRbracket)]
    else []
  }

  function SpellModifiers(c: ColumnDef): seq<Cell> {
    (if c.notNull then [Fixed(KNot), Fixed(KNull)] else []) + (if c.isOrder then [Fixed(KOrder)] else [])
  }

  function SpellColumn(w: Writing, c: ColumnDef): seq<Cell> {
    [Name(c.name), Fixed(SColon)] + (SpellType(w, c) + SpellModifiers(c))
  }

  function SpellColumns(w: Writing, columns: seq<ColumnDef>): seq<Cell>
    requires columns != []
  {
    if |columns| == 1 then SpellColumn(w, columns[0])
    else SpellColumn(w, columns[0]) + ([Fixed(SComma)] + SpellColumns(w, columns[1..]))
  }

  function KindOf(op: Operator): TokenType {
    match op
    case Between => KBetween
    case GreaterThan => SGt
    case LessThan => SLt
    case GreaterEqual => SGe
    case LessEqual => SLe
  }

  function SpellItem(w: Writing, item: ConstraintItem): seq<Cell> {
    match item.op
    case Between => [Name(item.column), Fixed(KBetween), w.realCell(item.valueMin), Fixed(KAnd), w.realCell(item.valueMax)]
    case GreaterThan => [Name(item.column), Fixed(SGt), w.realCell(item.valueMin)]
    case GreaterEqual => [Name(item.column), Fixed(SGe), w.realCell(item.valueMin)]
    case LessThan => [Name(item.column), Fixed(SLt), w.realCell(item.valueMax)]
    case LessEqual => [Name(item.column), Fixed(SLe), w.realCell(item.valueMax)]
  }

  function SpellItems(w: Writing, items: seq<ConstraintItem>): seq<Cell>
    requires items != []
  {
    if |items| == 1 then SpellItem(w, items[0])
    else SpellItem(w, items[0]) + ([Fixed(SComma)] + SpellItems(w, items[1..]))
  }

  function Closing(): seq<Cell> { [Fixed(SRbrace), Fixed(SSemicolon)] }

  function SpellStatement(w: Writing, s: Statement): seq<Cell> {
    match s
    case DefineType(name, columns) =>
      if columns == [] then []
      else [Fixed(KDefine), Fixed(KType), Name(name), Fixed(SLbrace)] + (SpellColumns(w, columns) + Closing())
    case LoadData(typeName, path) =>
      [Fixed(KLoad), Fixed(KData), Fixed(KInto), Name(typeName), Fixed(KFrom), Quoted(path), Fixed(SSemicolon)]
    case DefineConstraint(name, typeName, items) =>
      if items == [] then []
      else [Fixed(KDefine), Fixed(KConstraint), Name(name), Fixed(KOn), Name(typeName), Fixed(SLbrace)]
           + (SpellItems(w, items) + Closing())
    case GenerateTable(table, typeName, constraintName, limit) =>
      [Fixed(KGenerate), Fixed(KTable), Name(table), Fixed(KFrom), Name(typeName), Fixed(KWith), Name("CONSTRAINTS"),
       Name(constraintName), Fixed(KLimit), Cell(LInt, w.intText(limit)), Fixed(SSemicolon)]
  }

  function SpellProgram(w: Writing, ss: seq<Statement>): seq<Cell> {
    if ss == [] then [] else SpellStatement(w, ss[0]) + SpellProgram(w, ss[1..])
  }

  // ---------------------------------------------------------------- what can be written

  predicate WritableColumn(n: Numerals, w: Writing, c: ColumnDef) {
    && ColumnOk(c)
    && (c.rangeMin.Some? <==> c.rangeMax.Some?)
    && (c.rangeMin.Some? ==> (c.dataType == Float || c.dataType == Int)
                             && Reads(n, w, c.rangeMin.value) && c.rangeMax.Some? && Reads(n, w, c.rangeMax.value))
    && (c.dataType != Enum ==> c.enumValues == [])
  }

  predicate WritableItem(n: Numerals, w: Writing, item: ConstraintItem) {
    match item.op
    case Between => Reads(n, w, item.valueMin) && Reads(n, w, item.valueMax)
    case GreaterThan => Reads(n, w, item.valueMin) && item.valueMax == 0.0
    case GreaterEqual => Reads(n, w, item.valueMin) && item.valueMax == 0.0
    case LessThan => Reads(n, w, item.valueMax) && item.valueMin == 0.0
    case LessEqual => Reads(n, w, item.valueMax) && item.valueMin == 0.0
  }

  /** The statement can be written after these type names have been declared. */
  predicate Writable(n: Numerals, w: Writing, s: Statement, defined: seq<string>) {
    match s
    case DefineType(name, columns) =>
      columns != [] && DistinctNames(columns) && forall i | 0 <= i < |columns| :: WritableColumn(n, w, columns[i])
    case LoadData(typeName, _) => typeName in defined
    case DefineConstraint(_, typeName, items) =>
      typeName in defined && items != [] && forall i | 0 <= i < |items| :: WritableItem(n, w, items[i])
    case GenerateTable(_, typeName, _, limit) => typeName in defined && limit >= 0 && n.intOf(w.intText(limit)) == limit
  }

  function DefinedAfter(s: Statement, defined: seq<string>): seq<string> {
    if s.DefineType? then defined + [s.typeName] else defined
  }

  predicate WritableProgram(n: Numerals, w: Writing, ss: seq<Statement>, defined: seq<string>) {
    ss != [] ==> Writable(n, w, ss[0], defined) && WritableProgram(n, w, ss[1..], DefinedAfter(ss[0], defined))
  }

  // ---------------------------------------------------------------- spelled tokens

  predicate Matches(t: Token, c: Cell) {
    t.kind == c.kind && t.kind != TEof && (IsFixed(t.kind) || t.lexeme == c.text)
  }

  /** The tokens from `i` on are these cells, and at least the end token comes after them. */
  predicate Spelled(ts: seq<Token>, i: nat, cells: seq<Cell>) {
    i + |cells| < |ts| && forall k | 0 <= k < |cells| :: Matches(ts[i + k], cells[k])
  }

  lemma SpelledSplit(ts: seq<Token>, i: nat, a: seq<Cell>, b: seq<Cell>)
    requires Spelled(ts, i, a + b)
    ensures Spelled(ts, i, a) && Spelled(ts, i + |a|, b)
  {
    hide Matches;
    assert forall k | 0 <= k < |a| :: (a + b)[k] == a[k];
    forall k | 0 <= k < |b| ensures Matches(ts[i + |a| + k], b[k]) {
      assert (a + b)[|a| + k] == b[k];
      assert Matches(ts[i + (|a| + k)], (a + b)[|a| + k]);
    }
  }

  /** What the parser sees of the `k`-th cell. */
  lemma CellAt(ts: seq<Token>, i: nat, cells: seq<Cell>, k: nat)
    requires ProperTokens(ts) && Spelled(ts, i, cells) && k < |cells|
    ensures Sees(ts, i + k, cells[k])
  {
    assert Matches(ts[i + k], cells[k]);
  }

  /** The token at `p` is this cell and not the last token. */
  predicate Sees(ts: seq<Token>, p: nat, c: Cell) {
    && In(ts, p) && In(ts, p + 1) && !AtEnd(ts, p) && Next(ts, p) == p + 1 && ts[p].kind == c.kind
    && (!IsFixed(c.kind) ==> Word(ts, p) == c.text == ts[p].lexeme) && (p > 0 ==> Taken(ts, p) == ts[p])
    && forall kind :: (Is(ts, p, kind) <==> kind == c.kind) && Skip(ts, p, kind) == if kind == c.kind then p + 1 else p
  }

  /** The token after the cells, when it is not the end token. */
  lemma TokenAfter(ts: seq<Token>, i: nat, cells: seq<Cell>)
    requires ProperTokens(ts) && Spelled(ts, i, cells) && ts[i + |cells|].kind != TEof
    ensures In(ts, i + |cells|) && !AtEnd(ts, i + |cells|)
    ensures Sees(ts, i + |cells|, Cell(ts[i + |cells|].kind, ts[i + |cells|].lexeme))
  {
  }

  lemma SeesKind(ts: seq<Token>, p: nat, c: Cell)
    requires Sees(ts, p, c)
    ensures In(ts, p) && In(ts, p + 1) && !AtEnd(ts, p) && ts[p].kind == c.kind
  {
  }

  lemma Expected(ts: seq<Token>, p: nat, c: Cell)
    requires Sees(ts, p, c)
    ensures In(ts, p) && In(ts, p + 1) && !AtEnd(ts, p) && ts[p].kind == c.kind && Is(ts, p, c.kind)
    ensures Next(ts, p) == p + 1 && Skip(ts, p, c.kind) == p + 1
    ensures !IsFixed(c.kind) ==> Word(ts, p) == c.text
  {
  }

  lemma NotKind(ts: seq<Token>, p: nat, c: Cell, kind: TokenType)
    requires Sees(ts, p, c) && kind != c.kind
    ensures In(ts, p) && !Is(ts, p, kind)
  {
  }

  lemma SeesTwo(ts: seq<Token>, i: nat, a: Cell, b: Cell)
    requires ProperTokens(ts) && Spelled(ts, i, [a, b])
    ensures Sees(ts, i, a) && Sees(ts, i + 1, b)
  {
    hide Sees, ProperTokens, Spelled;
    CellAt(ts, i, [a, b], 0);
    CellAt(ts, i, [a, b], 1);
  }

  lemma SeesThree(ts: seq<Token>, i: nat, a: Cell, b: Cell, c: Cell)
    requires ProperTokens(ts) && Spelled(ts, i, [a, b, c])
    ensures Sees(ts, i, a) && Sees(ts, i + 1, b) && Sees(ts, i + 2, c)
  {
    hide Sees, ProperTokens, Spelled;
    var cells := [a, b, c];
    CellAt(ts, i, cells, 0);
    CellAt(ts, i, cells, 1);
    CellAt(ts, i, cells, 2);
  }

  // ---------------------------------------------------------------- reading back

  lemma ReadsBound(n: Numerals, w: Writing, ts: seq<Token>, i: nat, x: real)
    requires ProperTokens(ts) && i > 0 && Spelled(ts, i, [w.realCell(x)]) && Reads(n, w, x)
    ensures ParseBound(n, ts, i) == Ok(x, i + 1)
  {
    hide ProperTokens, Spelled, Skip, Next, Taken, Is, In, AtEnd;
    CellAt(ts, i, [w.realCell(x)], 0);
  }

  /** No operand is followed by a minus sign in a written program. */
  lemma ReadsOperand(n: Numerals, w: Writing, ts: seq<Token>, i: nat, x: real)
    requires ProperTokens(ts) && i > 0 && Spelled(ts, i, [w.realCell(x)]) && Reads(n, w, x) && ts[i + 1].kind != SMinus && ts[i + 1].kind != TEof
    ensures ParseOperand(n, ts, i) == Ok(x, i + 1)
  {
    hide ProperTokens, Spelled, In, Is, Next, Skip, AtEnd, Taken;
    CellAt(ts, i, [w.realCell(x)], 0);
    TokenAfter(ts, i, [w.realCell(x)]);
  }

  lemma SpelledOne(ts: seq<Token>, i: nat, cells: seq<Cell>, k: nat)
    requires Spelled(ts, i, cells) && k < |cells|
    ensures Spelled(ts, i + k, [cells[k]])
  {
    assert Matches(ts[i + k], cells[k]);
  }

  lemma ReadsRange(n: Numerals, w: Writing, ts: seq<Token>, i: nat, lo: real, hi: real)
    requires ProperTokens(ts) && i > 0 && Reads(n, w, lo) && Reads(n, w, hi) && lo < hi
    requires Spelled(ts, i, [w.realCell(lo), Fixed(SComma), w.realCell(hi), Fixed(SRbracket)])
    ensures ParseRange(n, ts, i) == Ok((lo, hi), i + 4)
  {
    hide ProperTokens, Spelled, Skip, Is, ParseBound, Reads, In, Next, AtEnd, Taken, Sees;
    var cells := [w.realCell(lo), Fixed(SComma), w.realCell(hi), Fixed(SRbracket)];
    SpelledOne(ts, i, cells, 0);
    ReadsBound(n, w, ts, i, lo);
    CellAt(ts, i, cells, 1);
    Expected(ts, i + 1, Fixed(SComma));
    SpelledOne(ts, i, cells, 2);
    ReadsBound(n, w, ts, i + 2, hi);
    CellAt(ts, i, cells, 3);
    Expected(ts, i + 3, Fixed(SRbracket));
  }

  lemma UnquotesAt(ts: seq<Token>, i: nat, cells: seq<Cell>, k: nat, s: string)
    requires ProperTokens(ts) && Spelled(ts, i, cells) && k < |cells| && cells[k] == Quoted(s)
    ensures In(ts, i + k) && Is(ts, i + k, LString) && Unquoted(ts, i + k) == s
  {
    CellAt(ts, i, cells, k);
  }

  lemma {:induction false} ReadsEnumValues(ts: seq<Token>, i: nat, before: seq<string>, values: seq<string>)
    requires ProperTokens(ts) && values != [] && Spelled(ts, i, SpellEnumValues(values))
    requires ts[i + |SpellEnumValues(values)|].kind == SRparen
    ensures ParseEnumValues(ts, i, before) == Ok(before + values, i + |SpellEnumValues(values)|)
    decreases |values|
  {
    hide ProperTokens, Spelled, In, Is, Next, Skip, AtEnd, Taken, Sees, Quoted, Unquoted, SpellEnumValues, ParseEnumValues;
    var cells := SpellEnumValues(values);
    SpellsEnum(values);
    if |values| == 1 {
      TokenAfter(ts, i, cells);
      UnquotesAt(ts, i, cells, 0, values[0]);
      LastEnumValue(ts, i, before, values[0]);
      assert values == [values[0]];
    } else {
      var head, rest := [Quoted(values[0]), Fixed(SComma)], SpellEnumValues(values[1..]);
      SpelledSplit(ts, i, head, rest);
      SeesTwo(ts, i, Quoted(values[0]), Fixed(SComma));
      UnquotesAt(ts, i, head, 0, values[0]);
      SpellsEnum(values[1..]);
      CellAt(ts, i + 2, rest, 0);
      SeesKind(ts, i + 2, rest[0]);
      NextEnumValue(ts, i, before, values[0]);
      ReadsEnumValues(ts, i + 2, before + [values[0]], values[1..]);
      assert before + [values[0]] + values[1..] == before + values;
    }
  }

  lemma SpellsEnum(values: seq<string>)
    requires values != []
    ensures SpellEnumValues(values) != [] && SpellEnumValues(values)[0].kind == LString
    ensures |values| == 1 ==> SpellEnumValues(values) == [Quoted(values[0])]
    ensures |values| > 1 ==> SpellEnumValues(values) == [Quoted(values[0]), Fixed(SComma)] + SpellEnumValues(values[1..])
  {
  }

  lemma LastEnumValue(ts: seq<Token>, i: nat, before: seq<string>, value: string)
    requires In(ts, i) && Is(ts, i, LString) && Unquoted(ts, i) == value
    requires In(ts, i + 1) && ts[i + 1].kind == SRparen
    ensures ParseEnumValues(ts, i, before) == Ok(before + [value], i + 1)
  {
    hide ProperTokens, Unquoted;
  }

  lemma NextEnumValue(ts: seq<Token>, i: nat, before: seq<string>, value: string)
    requires In(ts, i) && Is(ts, i, LString) && Unquoted(ts, i) == value
    requires Sees(ts, i + 1, Fixed(SComma)) && In(ts, i + 2) && ts[i + 2].kind == LString
    ensures ParseEnumValues(ts, i, before) == ParseEnumValues(ts, i + 2, before + [value])
  {
    hide ProperTokens, Unquoted;
  }

  predicate Ends(ts: seq<Token>, i: nat)
    requires i < |ts|
  {
    ts[i].kind == SComma || ts[i].kind == SRbrace
  }

  lemma ReadsModifiers(ts: seq<Token>, i: nat, c: ColumnDef)
    requires ProperTokens(ts) && Spelled(ts, i, SpellModifiers(c)) && Ends(ts, i + |SpellModifiers(c)|)
    ensures ParseModifiers(ts, i, false, false) == Modifiers(c.notNull, c.isOrder, i + |SpellModifiers(c)|)
  {
    hide ProperTokens, Spelled, In, Is, Next, Skip, AtEnd, Taken, Sees, ParseModifiers;
    var a := if c.notNull then [Fixed(KNot), Fixed(KNull)] else [];
    var b := if c.isOrder then [Fixed(KOrder)] else [];
    SpelledSplit(ts, i, a, b);
    if c.notNull {
      SeesTwo(ts, i, Fixed(KNot), Fixed(KNull));
      ReadsNotNull(ts, i);
    }
    var j := i + |a|;
    if c.isOrder {
      CellAt(ts, j, b, 0);
      ReadsOrder(ts, j, c.notNull);
    }
    TokenAfter(ts, i, SpellModifiers(c));
    var e := i + |SpellModifiers(c)|;
    StopsModifiers(ts, e, c.notNull, c.isOrder);
  }

  lemma ReadsNotNull(ts: seq<Token>, i: nat)
    requires Sees(ts, i, Fixed(KNot)) && Sees(ts, i + 1, Fixed(KNull))
    ensures In(ts, i) && In(ts, i + 2) && ParseModifiers(ts, i, false, false) == ParseModifiers(ts, i + 2, true, false)
  {
    hide ProperTokens, Spelled, In, Is, Next, Skip, AtEnd, Taken;
  }

  lemma ReadsOrder(ts: seq<Token>, i: nat, notNull: bool)
    requires Sees(ts, i, Fixed(KOrder))
    ensures In(ts, i) && In(ts, i + 1) && ParseModifiers(ts, i, notNull, false) == ParseModifiers(ts, i + 1, notNull, true)
  {
    hide ProperTokens, Spelled, In, Is, Next, Skip, AtEnd, Taken;
  }

  lemma StopsModifiers(ts: seq<Token>, i: nat, notNull: bool, isOrder: bool)
    requires In(ts, i) && Ends(ts, i)
    ensures ParseModifiers(ts, i, notNull, isOrder) == Modifiers(notNull, isOrder, i)
  {
  }

  function TypeOf(c: ColumnDef): ColumnType {
    ColumnType(c.dataType, if c.rangeMin.Some? && c.rangeMax.Some? then Some((c.rangeMin.value, c.rangeMax.value)) else None, c.enumValues)
  }

  predicate AfterType(kind: TokenType) {
    kind == KNot || kind == KOrder || kind == SComma || kind == SRbrace
  }

  lemma ReadsNumericType(n: Numerals, w: Writing, ts: seq<Token>, i: nat, c: ColumnDef)
    requires ProperTokens(ts) && i > 0 && WritableColumn(n, w, c) && (c.dataType == Float || c.dataType == Int)
    requires Spelled(ts, i, SpellRange(w, c)) && AfterType(ts[i + |SpellRange(w, c)|].kind)
    ensures ParseNumericType(n, ts, i, c.dataType) == Ok(TypeOf(c), i + |SpellRange(w, c)|)
  {
    hide TypeOk, ProperTokens, Spelled, Reads, ParseRange, In, Is, Next, Skip, AtEnd, Taken, Sees;
    var cells := SpellRange(w, c);
    if c.rangeMin.Some? {
      CellAt(ts, i, cells, 0);
      Expected(ts, i, Fixed(SLbracket));
      var rest := [w.realCell(c.rangeMin.value), Fixed(SComma), w.realCell(c.rangeMax.value), Fixed(SRbracket)];
      assert cells == [Fixed(SLbracket)] + rest;
      SpelledSplit(ts, i, [Fixed(SLbracket)], rest);
      ReadsRange(n, w, ts, i + 1, c.rangeMin.value, c.rangeMax.value);
    } else {
      TokenAfter(ts, i, cells);
      NotKind(ts, i, Cell(ts[i].kind, ts[i].lexeme), SLbracket);
    }
  }

  lemma ReadsEnumType(n: Numerals, ts: seq<Token>, i: nat, values: seq<string>)
    requires ProperTokens(ts) && i > 0 && values != []
    requires Spelled(ts, i, [Fixed(SLparen)] + (SpellEnumValues(values) + [Fixed(SRparen)]))
    ensures ParseColumnType(n, ts, i, KEnum) == Ok(ColumnType(Enum, None, values), i + 2 + |SpellEnumValues(values)|)
  {
    hide TypeOk, ProperTokens, Spelled, SpellEnumValues, ParseEnumValues, In, Is, Next, Skip, AtEnd, Taken;
    var inner := SpellEnumValues(values);
    SpelledSplit(ts, i, [Fixed(SLparen)], inner + [Fixed(SRparen)]);
    SpelledSplit(ts, i + 1, inner, [Fixed(SRparen)]);
    CellAt(ts, i, [Fixed(SLparen)], 0);
    CellAt(ts, i + 1 + |inner|, [Fixed(SRparen)], 0);
    ReadsEnumValues(ts, i + 1, [], values);
    assert [] + values == values;
  }

  /** The type of a column, from its first word on. */
  lemma ReadsType(n: Numerals, w: Writing, ts: seq<Token>, i: nat, c: ColumnDef)
    requires ProperTokens(ts) && WritableColumn(n, w, c) && Spelled(ts, i, SpellType(w, c))
    requires AfterType(ts[i + |SpellType(w, c)|].kind)
    ensures In(ts, i) && In(ts, i + 1) && !AtEnd(ts, i) && Next(ts, i) == i + 1
    ensures ParseColumnType(n, ts, i + 1, ts[i].kind) == Ok(TypeOf(c), i + |SpellType(w, c)|)
  {
    hide TypeOk, AfterType, ProperTokens, Spelled, In, Next, AtEnd, SpellType, WritableColumn, ParseColumnType, TypeOf;
    PlainTypes(n, w, c);
    if c.dataType == Enum {
      ReadsEnumColumn(n, w, ts, i, c);
    } else if c.dataType == Float || c.dataType == Int {
      ReadsNumericColumn(n, w, ts, i, c);
    } else {
      ReadsPlainColumn(n, w, ts, i, c);
    }
  }

  lemma NumericCells(w: Writing, c: ColumnDef)
    requires c.dataType == Float || c.dataType == Int
    ensures SpellType(w, c) == [Fixed(if c.dataType == Float then KFloat else KInt)] + SpellRange(w, c)
  {
    hide SpellRange;
  }

  lemma ReadsNumericColumn(n: Numerals, w: Writing, ts: seq<Token>, i: nat, c: ColumnDef)
    requires ProperTokens(ts) && WritableColumn(n, w, c) && (c.dataType == Float || c.dataType == Int)
    requires Spelled(ts, i, SpellType(w, c)) && AfterType(ts[i + |SpellType(w, c)|].kind)
    ensures In(ts, i) && In(ts, i + 1) && !AtEnd(ts, i) && Next(ts, i) == i + 1
    ensures ParseColumnType(n, ts, i + 1, ts[i].kind) == Ok(TypeOf(c), i + |SpellType(w, c)|)
  {
    hide TypeOk, AfterType, ProperTokens, Spelled, In, Next, AtEnd, Sees, SpellType, SpellRange, WritableColumn, ParseColumnType, TypeOf;
    var word := Fixed(if c.dataType == Float then KFloat else KInt);
    NumericCells(w, c);
    SpelledSplit(ts, i, [word], SpellRange(w, c));
    CellAt(ts, i, [word], 0);
    SeesFirst(ts, i, word);
    ColumnTypes(n, ts, i + 1);
    ReadsNumericType(n, w, ts, i + 1, c);
  }

  lemma ReadsPlainColumn(n: Numerals, w: Writing, ts: seq<Token>, i: nat, c: ColumnDef)
    requires ProperTokens(ts) && WritableColumn(n, w, c) && (c.dataType == Datetime || c.dataType == Text)
    requires Spelled(ts, i, SpellType(w, c))
    ensures In(ts, i) && In(ts, i + 1) && !AtEnd(ts, i) && Next(ts, i) == i + 1
    ensures ParseColumnType(n, ts, i + 1, ts[i].kind) == Ok(TypeOf(c), i + |SpellType(w, c)|)
  {
    hide TypeOk, AfterType, ProperTokens, Spelled, In, Next, AtEnd, Sees, WritableColumn, ParseColumnType, TypeOf;
    CellAt(ts, i, SpellType(w, c), 0);
    SeesFirst(ts, i, SpellType(w, c)[0]);
    ColumnTypes(n, ts, i + 1);
    PlainTypes(n, w, c);
  }

  lemma ColumnTypes(n: Numerals, ts: seq<Token>, i: nat)
    requires In(ts, i) && i > 0
    ensures ParseColumnType(n, ts, i, KFloat) == ParseNumericType(n, ts, i, Float)
    ensures ParseColumnType(n, ts, i, KInt) == ParseNumericType(n, ts, i, Int)
    ensures ParseColumnType(n, ts, i, KDatetime) == Ok(ColumnType(Datetime, None, []), i)
    ensures ParseColumnType(n, ts, i, KString) == Ok(ColumnType(Text, None, []), i)
  {
    hide In, Is, AtEnd, Next, Skip, ParseNumericType, ParseEnumValues, TypeOk, ProperTokens;
  }

  lemma PlainTypes(n: Numerals, w: Writing, c: ColumnDef)
    requires WritableColumn(n, w, c)
    ensures SpellType(w, c) != []
    ensures c.dataType == Datetime || c.dataType == Text ==> TypeOf(c) == ColumnType(c.dataType, None, [])
    ensures c.dataType == Enum ==> c.enumValues != [] && TypeOf(c) == ColumnType(Enum, None, c.enumValues)
  {
  }

  lemma ReadsEnumColumn(n: Numerals, w: Writing, ts: seq<Token>, i: nat, c: ColumnDef)
    requires ProperTokens(ts) && c.dataType == Enum && c.enumValues != [] && Spelled(ts, i, SpellType(w, c))
    ensures In(ts, i) && In(ts, i + 1) && !AtEnd(ts, i) && Next(ts, i) == i + 1 && ts[i].kind == KEnum
    ensures ParseColumnType(n, ts, i + 1, KEnum) == Ok(ColumnType(Enum, None, c.enumValues), i + |SpellType(w, c)|)
  {
    hide TypeOk, ProperTokens, Spelled, In, Next, AtEnd, Sees, SpellEnumValues, ParseColumnType;
    var inner := SpellEnumValues(c.enumValues) + [Fixed(SRparen)];
    var rest := [Fixed(SLparen)] + inner;
    assert SpellType(w, c) == [Fixed(KEnum)] + rest;
    SpelledSplit(ts, i, [Fixed(KEnum)], rest);
    CellAt(ts, i, [Fixed(KEnum)], 0);
    SeesFirst(ts, i, Fixed(KEnum));
    ReadsEnumType(n, ts, i + 1, c.enumValues);
  }

  lemma SeesFirst(ts: seq<Token>, i: nat, c: Cell)
    requires Sees(ts, i, c)
    ensures In(ts, i) && In(ts, i + 1) && !AtEnd(ts, i) && Next(ts, i) == i + 1 && ts[i].kind == c.kind
  {
  }

  lemma ReadsColumn(n: Numerals, w: Writing, ts: seq<Token>, i: nat, c: ColumnDef)
    requires ProperTokens(ts) && WritableColumn(n, w, c) && Spelled(ts, i, SpellColumn(w, c))
    requires Ends(ts, i + |SpellColumn(w, c)|)
    ensures In(ts, i) && ParseColumnDef(n, ts, i) == Ok(c, i + |SpellColumn(w, c)|)
  {
    hide TypeOk, ProperTokens, Spelled, SpellType, SpellModifiers, ParseColumnType, ParseModifiers, WritableColumn, In, Is, Next, Skip, AtEnd, Taken;
    var head := [Name(c.name), Fixed(SColon)];
    var t, m := SpellType(w, c), SpellModifiers(c);
    SpelledSplit(ts, i, head, t + m);
    SpelledSplit(ts, i + 2, t, m);
    CellAt(ts, i, head, 0);
    CellAt(ts, i, head, 1);
    FirstModifier(ts, i + 2 + |t|, c);
    ReadsType(n, w, ts, i + 2, c);
    ReadsModifiers(ts, i + 2 + |t|, c);
    TypeAndModifiers(n, w, c);
  }

  lemma FirstModifier(ts: seq<Token>, i: nat, c: ColumnDef)
    requires ProperTokens(ts) && Spelled(ts, i, SpellModifiers(c)) && Ends(ts, i + |SpellModifiers(c)|)
    ensures AfterType(ts[i].kind)
  {
    hide ProperTokens, Spelled, In, Is, Next, Skip, AtEnd, Taken;
    if SpellModifiers(c) != [] {
      CellAt(ts, i, SpellModifiers(c), 0);
    }
  }

  lemma TypeAndModifiers(n: Numerals, w: Writing, c: ColumnDef)
    requires WritableColumn(n, w, c)
    ensures forall next :: ColumnOf(c.name, TypeOf(c), Modifiers(c.notNull, c.isOrder, next)) == c
  {
  }

  lemma {:induction false} ReadsColumns(n: Numerals, w: Writing, ts: seq<Token>, i: nat, seen: seq<ColumnDef>, columns: seq<ColumnDef>)
    requires ProperTokens(ts) && columns != [] && DistinctNames(seen + columns)
    requires forall k | 0 <= k < |columns| :: WritableColumn(n, w, columns[k])
    requires Spelled(ts, i, SpellColumns(w, columns)) && ts[i + |SpellColumns(w, columns)|].kind == SRbrace
    ensures In(ts, i) && ParseColumns(n, ts, i, seen) == Ok(seen + columns, i + |SpellColumns(w, columns)|)
    decreases |columns|
  {
    hide ProperTokens, Spelled, SpellColumn, ParseColumnDef, WritableColumn, In, Is, Next, Skip, AtEnd, Taken;
    TokenAfter(ts, i, SpellColumns(w, columns));
    var c := columns[0];
    var cells := SpellColumn(w, c);
    NotSeen(seen, columns);
    if |columns| == 1 {
      ReadsColumn(n, w, ts, i, c);
      assert columns == [c];
    } else {
      var rest := SpellColumns(w, columns[1..]);
      SpelledSplit(ts, i, cells, [Fixed(SComma)] + rest);
      SpelledSplit(ts, i + |cells|, [Fixed(SComma)], rest);
      CellAt(ts, i + |cells|, [Fixed(SComma)], 0);
      ReadsColumn(n, w, ts, i, c);
      FirstOfColumns(ts, w, i + |cells| + 1, columns[1..]);
      assert seen + [c] + columns[1..] == seen + columns;
      ReadsColumns(n, w, ts, i + |cells| + 1, seen + [c], columns[1..]);
    }
  }

  lemma NotSeen(seen: seq<ColumnDef>, columns: seq<ColumnDef>)
    requires columns != [] && DistinctNames(seen + columns)
    ensures !HasColumn(seen, columns[0].name)
  {
    var all := seen + columns;
    forall i | 0 <= i < |seen| ensures seen[i].name != columns[0].name {
      assert all[i].name != all[|seen|].name;
    }
  }

  lemma FirstOfColumns(ts: seq<Token>, w: Writing, i: nat, columns: seq<ColumnDef>)
    requires ProperTokens(ts) && columns != [] && Spelled(ts, i, SpellColumns(w, columns))
    ensures In(ts, i) && !AtEnd(ts, i) && !Is(ts, i, SRbrace)
  {
    ColumnsHead(w, columns);
    hide ProperTokens, Spelled, In, Is, Next, Skip, AtEnd, Taken, SpellColumns;
    CellAt(ts, i, SpellColumns(w, columns), 0);
  }

  lemma ReadsItem(n: Numerals, w: Writing, ts: seq<Token>, i: nat, item: ConstraintItem)
    requires ProperTokens(ts) && WritableItem(n, w, item) && Spelled(ts, i, SpellItem(w, item))
    requires Ends(ts, i + |SpellItem(w, item)|)
    ensures In(ts, i) && ParseConstraintItem(n, ts, i) == Ok(item, i + |SpellItem(w, item)|)
  {
    hide ProperTokens, Spelled, Reads, ParseBound, ParseOperand, In, Is, Next, Skip, AtEnd, Taken;
    var cells := SpellItem(w, item);
    var head := [Name(item.column), Fixed(KindOf(item.op))];
    if item.op == Between {
      var rest := [w.realCell(item.valueMin), Fixed(KAnd), w.realCell(item.valueMax)];
      assert cells == head + rest;
      SpelledSplit(ts, i, head, rest);
      SpelledOne(ts, i + 2, rest, 0);
      ReadsBound(n, w, ts, i + 2, item.valueMin);
      CellAt(ts, i + 2, rest, 1);
      SpelledOne(ts, i + 2, rest, 2);
      ReadsBound(n, w, ts, i + 4, item.valueMax);
      SeesTwo(ts, i, Name(item.column), Fixed(KindOf(item.op)));
      BetweenFromParts(n, ts, i, item);
    } else {
      var x := if item.op == GreaterThan || item.op == GreaterEqual then item.valueMin else item.valueMax;
      assert cells == head + [w.realCell(x)];
      SpelledSplit(ts, i, head, [w.realCell(x)]);
      ReadsOperand(n, w, ts, i + 2, x);
      SeesTwo(ts, i, Name(item.column), Fixed(KindOf(item.op)));
      ComparisonFromParts(n, ts, i, item, x);
    }
    SeesKind(ts, i, Name(item.column));
  }

  lemma BetweenFromParts(n: Numerals, ts: seq<Token>, i: nat, item: ConstraintItem)
    requires item.op == Between
    requires Sees(ts, i, Name(item.column)) && Sees(ts, i + 1, Fixed(KBetween)) && Sees(ts, i + 3, Fixed(KAnd))
    requires In(ts, i + 2) && ParseBound(n, ts, i + 2) == Ok(item.valueMin, i + 3)
    requires In(ts, i + 4) && ParseBound(n, ts, i + 4) == Ok(item.valueMax, i + 5)
    ensures ParseConstraintItem(n, ts, i) == Ok(item, i + 5)
  {
    hide ProperTokens, Spelled, In, Is, Next, Skip, AtEnd, Taken, ParseBound, Sees;
    Expected(ts, i, Name(item.column));
    Expected(ts, i + 1, Fixed(KBetween));
    Expected(ts, i + 3, Fixed(KAnd));
  }

  lemma ComparisonFromParts(n: Numerals, ts: seq<Token>, i: nat, item: ConstraintItem, x: real)
    requires item.op != Between && Sees(ts, i, Name(item.column)) && Sees(ts, i + 1, Fixed(KindOf(item.op)))
    requires In(ts, i + 2) && ParseOperand(n, ts, i + 2) == Ok(x, i + 3)
    requires if item.op == GreaterThan || item.op == GreaterEqual then item.valueMin == x && item.valueMax == 0.0
             else item.valueMax == x && item.valueMin == 0.0
    ensures ParseConstraintItem(n, ts, i) == Ok(item, i + 3)
  {
    hide ProperTokens, Spelled, In, Is, Next, Skip, AtEnd, Taken, ParseOperand, Sees;
    Expected(ts, i, Name(item.column));
    Expected(ts, i + 1, Fixed(KindOf(item.op)));
  }

  lemma ItemsHead(w: Writing, items: seq<ConstraintItem>)
    requires items != []
    ensures SpellItems(w, items) != [] && SpellItems(w, items)[0] == Name(items[0].column)
  {
  }

  lemma ColumnsHead(w: Writing, columns: seq<ColumnDef>)
    requires columns != []
    ensures SpellColumns(w, columns) != [] && SpellColumns(w, columns)[0] == Name(columns[0].name)
  {
  }

  lemma FirstOfItems(ts: seq<Token>, w: Writing, i: nat, items: seq<ConstraintItem>)
    requires ProperTokens(ts) && items != [] && Spelled(ts, i, SpellItems(w, items))
    ensures In(ts, i) && !AtEnd(ts, i) && !Is(ts, i, SRbrace) && !Conditional(ts, i) && !Aggregating(ts, i)
  {
    ItemsHead(w, items);
    hide ProperTokens, Spelled, In, Is, Next, Skip, AtEnd, Taken, SpellItems;
    CellAt(ts, i, SpellItems(w, items), 0);
  }

  lemma {:induction false} ReadsItems(n: Numerals, w: Writing, ts: seq<Token>, i: nat, before: seq<ConstraintItem>, items: seq<ConstraintItem>)
    requires ProperTokens(ts) && items != [] && forall k | 0 <= k < |items| :: WritableItem(n, w, items[k])
    requires Spelled(ts, i, SpellItems(w, items)) && ts[i + |SpellItems(w, items)|].kind == SRbrace
    ensures In(ts, i) && ParseItems(n, ts, i, before) == Ok(before + items, i + |SpellItems(w, items)|)
    decreases |items|
  {
    hide ProperTokens, Spelled, SpellItem, ParseConstraintItem, WritableItem, Conditional, Aggregating, In, Is, Next, Skip, AtEnd, Taken;
    TokenAfter(ts, i, SpellItems(w, items));
    var item := items[0];
    var cells := SpellItem(w, item);
    FirstOfItems(ts, w, i, items);
    if |items| == 1 {
      ReadsItem(n, w, ts, i, item);
      assert items == [item];
    } else {
      var rest := SpellItems(w, items[1..]);
      SpelledSplit(ts, i, cells, [Fixed(SComma)] + rest);
      SpelledSplit(ts, i + |cells|, [Fixed(SComma)], rest);
      CellAt(ts, i + |cells|, [Fixed(SComma)], 0);
      ReadsItem(n, w, ts, i, item);
      FirstOfItems(ts, w, i + |cells| + 1, items[1..]);
      assert before + [item] + items[1..] == before + items;
      ReadsItems(n, w, ts, i + |cells| + 1, before + [item], items[1..]);
    }
  }

  // ---------------------------------------------------------------- statements

  lemma SeesFour(ts: seq<Token>, i: nat, a: Cell, b: Cell, c: Cell, d: Cell)
    requires ProperTokens(ts) && Spelled(ts, i, [a, b, c, d])
    ensures Sees(ts, i, a) && Sees(ts, i + 1, b) && Sees(ts, i + 2, c) && Sees(ts, i + 3, d)
  {
    hide Sees, ProperTokens, Spelled;
    var cells := [a, b, c, d];
    CellAt(ts, i, cells, 0);
    CellAt(ts, i, cells, 1);
    CellAt(ts, i, cells, 2);
    CellAt(ts, i, cells, 3);
  }

  lemma ReadsDefineType(n: Numerals, w: Writing, ts: seq<Token>, i: nat, s: Statement, defined: seq<string>)
    requires ProperTokens(ts) && s.DefineType? && Writable(n, w, s, defined) && Spelled(ts, i, SpellStatement(w, s))
    ensures In(ts, i) && ParseStatement(n, ts, i, defined) == Accepted(s, i + |SpellStatement(w, s)|, defined + [s.typeName])
  {
    hide ProperTokens, Spelled, In, Is, Next, Skip, AtEnd, Taken, SpellColumns, ParseColumns, WritableColumn, Sees;
    var head := [Fixed(KDefine), Fixed(KType), Name(s.typeName), Fixed(SLbrace)];
    var cells := SpellColumns(w, s.columns);
    SpelledSplit(ts, i, head, cells + Closing());
    SpelledSplit(ts, i + 4, cells, Closing());
    SeesFour(ts, i, Fixed(KDefine), Fixed(KType), Name(s.typeName), Fixed(SLbrace));
    SeesTwo(ts, i + 4 + |cells|, Fixed(SRbrace), Fixed(SSemicolon));
    SeesKind(ts, i, Fixed(KDefine));
    SeesKind(ts, i + 4 + |cells|, Fixed(SRbrace));
    FirstOfColumns(ts, w, i + 4, s.columns);
    assert [] + s.columns == s.columns;
    ReadsColumns(n, w, ts, i + 4, [], s.columns);
    TypeFromParts(n, ts, i, s, defined, i + 4 + |cells|);
  }

  lemma TypeFromParts(n: Numerals, ts: seq<Token>, i: nat, s: Statement, defined: seq<string>, e: nat)
    requires s.DefineType?
    requires Sees(ts, i, Fixed(KDefine)) && Sees(ts, i + 1, Fixed(KType)) && Sees(ts, i + 2, Name(s.typeName))
    requires Sees(ts, i + 3, Fixed(SLbrace)) && In(ts, i + 4) && !AtEnd(ts, i + 4)
    requires Sees(ts, e, Fixed(SRbrace)) && Sees(ts, e + 1, Fixed(SSemicolon))
    requires ParseColumns(n, ts, i + 4, []) == Ok(s.columns, e)
    ensures ParseStatement(n, ts, i, defined) == Accepted(s, e + 2, defined + [s.typeName])
  {
    hide ProperTokens, Spelled, In, Is, Next, Skip, AtEnd, Taken, ParseColumns, ColumnOk, Sees;
    Expected(ts, i, Fixed(KDefine));
    Expected(ts, i + 1, Fixed(KType));
    Expected(ts, i + 2, Name(s.typeName));
    Expected(ts, i + 3, Fixed(SLbrace));
    Expected(ts, e, Fixed(SRbrace));
    Expected(ts, e + 1, Fixed(SSemicolon));
  }

  lemma ReadsDefineConstraint(n: Numerals, w: Writing, ts: seq<Token>, i: nat, s: Statement, defined: seq<string>)
    requires ProperTokens(ts) && s.DefineConstraint? && Writable(n, w, s, defined) && Spelled(ts, i, SpellStatement(w, s))
    ensures In(ts, i) && ParseStatement(n, ts, i, defined) == Accepted(s, i + |SpellStatement(w, s)|, defined)
  {
    hide ProperTokens, Spelled, In, Is, Next, Skip, AtEnd, Taken, SpellItems, ParseItems, WritableItem, Conditional, Aggregating, Sees;
    var cells := SpellItems(w, s.items);
    var tail := cells + Closing();
    var two := [Fixed(KOn), Name(s.typeName), Fixed(SLbrace)];
    assert SpellStatement(w, s) == [Fixed(KDefine), Fixed(KConstraint), Name(s.constraintName)] + (two + tail);
    SpelledSplit(ts, i, [Fixed(KDefine), Fixed(KConstraint), Name(s.constraintName)], two + tail);
    SpelledSplit(ts, i + 3, two, tail);
    SpelledSplit(ts, i + 6, cells, Closing());
    SeesThree(ts, i, Fixed(KDefine), Fixed(KConstraint), Name(s.constraintName));
    SeesThree(ts, i + 3, Fixed(KOn), Name(s.typeName), Fixed(SLbrace));
    SeesTwo(ts, i + 6 + |cells|, Fixed(SRbrace), Fixed(SSemicolon));
    SeesKind(ts, i, Fixed(KDefine));
    SeesKind(ts, i + 6 + |cells|, Fixed(SRbrace));
    assert [] + s.items == s.items;
    ReadsItems(n, w, ts, i + 6, [], s.items);
    ConstraintFromParts(n, ts, i + 1, s, defined, i + 6 + |cells|);
    DefinesConstraint(n, ts, i, defined);
  }

  lemma DefinesConstraint(n: Numerals, ts: seq<Token>, i: nat, defined: seq<string>)
    requires Sees(ts, i, Fixed(KDefine)) && Sees(ts, i + 1, Fixed(KConstraint))
    ensures In(ts, i) && In(ts, i + 1) && ParseStatement(n, ts, i, defined) == ParseDefineConstraint(n, ts, i + 1, defined)
  {
    hide ProperTokens, Spelled, In, Is, Next, Skip, AtEnd, Taken, ParseDefineConstraint, Sees;
    Expected(ts, i, Fixed(KDefine));
    Expected(ts, i + 1, Fixed(KConstraint));
    NotKind(ts, i + 1, Fixed(KConstraint), KType);
  }

  lemma ConstraintFromParts(n: Numerals, ts: seq<Token>, i: nat, s: Statement, defined: seq<string>, e: nat)
    requires s.DefineConstraint? && s.typeName in defined && In(ts, i + 5)
    requires Sees(ts, i, Fixed(KConstraint)) && Sees(ts, i + 1, Name(s.constraintName)) && Sees(ts, i + 2, Fixed(KOn))
    requires Sees(ts, i + 3, Name(s.typeName)) && Sees(ts, i + 4, Fixed(SLbrace))
    requires Sees(ts, e, Fixed(SRbrace)) && Sees(ts, e + 1, Fixed(SSemicolon))
    requires ParseItems(n, ts, i + 5, []) == Ok(s.items, e)
    ensures In(ts, i) && ParseDefineConstraint(n, ts, i, defined) == Accepted(s, e + 2, defined)
  {
    hide ProperTokens, Spelled, In, Is, Next, Skip, AtEnd, Taken, ParseItems, Conditional, Aggregating, Sees;
    Expected(ts, i, Fixed(KConstraint));
    Expected(ts, i + 1, Name(s.constraintName));
    Expected(ts, i + 2, Fixed(KOn));
    Expected(ts, i + 3, Name(s.typeName));
    Expected(ts, i + 4, Fixed(SLbrace));
    Expected(ts, e, Fixed(SRbrace));
    Expected(ts, e + 1, Fixed(SSemicolon));
    PlainBrace(ts, e);
  }

  lemma PlainBrace(ts: seq<Token>, e: nat)
    requires Sees(ts, e, Fixed(SRbrace))
    ensures In(ts, e) && !Conditional(ts, e) && !Aggregating(ts, e)
  {
    hide ProperTokens, Spelled, In, Is, Next, Skip, AtEnd, Taken;
  }

  lemma ReadsLoadData(n: Numerals, w: Writing, ts: seq<Token>, i: nat, s: Statement, defined: seq<string>)
    requires ProperTokens(ts) && s.LoadData? && Writable(n, w, s, defined) && Spelled(ts, i, SpellStatement(w, s))
    ensures In(ts, i) && ParseStatement(n, ts, i, defined) == Accepted(s, i + |SpellStatement(w, s)|, defined)
  {
    hide ProperTokens, Spelled, In, Is, Next, Skip, AtEnd, Taken, Sees, Quoted, Unquoted;
    var rest := [Fixed(KFrom), Quoted(s.filePath), Fixed(SSemicolon)];
    assert SpellStatement(w, s) == [Fixed(KLoad), Fixed(KData), Fixed(KInto), Name(s.typeName)] + rest;
    SpelledSplit(ts, i, [Fixed(KLoad), Fixed(KData), Fixed(KInto), Name(s.typeName)], rest);
    SeesFour(ts, i, Fixed(KLoad), Fixed(KData), Fixed(KInto), Name(s.typeName));
    SeesThree(ts, i + 4, Fixed(KFrom), Quoted(s.filePath), Fixed(SSemicolon));
    UnquotesAt(ts, i + 4, rest, 1, s.filePath);
    SeesKind(ts, i, Fixed(KLoad));
    LoadFromParts(n, ts, i, s, defined);
  }

  lemma LoadFromParts(n: Numerals, ts: seq<Token>, i: nat, s: Statement, defined: seq<string>)
    requires s.LoadData? && s.typeName in defined
    requires Sees(ts, i, Fixed(KLoad)) && Sees(ts, i + 1, Fixed(KData)) && Sees(ts, i + 2, Fixed(KInto))
    requires Sees(ts, i + 3, Name(s.typeName)) && Sees(ts, i + 4, Fixed(KFrom))
    requires Sees(ts, i + 5, Quoted(s.filePath)) && Sees(ts, i + 6, Fixed(SSemicolon))
    requires In(ts, i + 5) && Is(ts, i + 5, LString) && Unquoted(ts, i + 5) == s.filePath
    ensures ParseStatement(n, ts, i, defined) == Accepted(s, i + 7, defined)
  {
    hide ProperTokens, Spelled, In, Is, Next, Skip, AtEnd, Taken, Unquoted, Sees;
    Expected(ts, i, Fixed(KLoad));
    NotKind(ts, i, Fixed(KLoad), KDefine);
    Expected(ts, i + 1, Fixed(KData));
    Expected(ts, i + 2, Fixed(KInto));
    Expected(ts, i + 3, Name(s.typeName));
    Expected(ts, i + 4, Fixed(KFrom));
    Expected(ts, i + 5, Quoted(s.filePath));
    Expected(ts, i + 6, Fixed(SSemicolon));
  }

  lemma ReadsGenerateTable(n: Numerals, w: Writing, ts: seq<Token>, i: nat, s: Statement, defined: seq<string>)
    requires ProperTokens(ts) && s.GenerateTable? && Writable(n, w, s, defined) && Spelled(ts, i, SpellStatement(w, s))
    ensures In(ts, i) && ParseStatement(n, ts, i, defined) == Accepted(s, i + |SpellStatement(w, s)|, defined)
  {
    hide ProperTokens, Spelled, In, Is, Next, Skip, AtEnd, Taken, Sees;
    var head := [Fixed(KGenerate), Fixed(KTable), Name(s.tableName), Fixed(KFrom)];
    var middle := [Name(s.typeName), Fixed(KWith), Name("CONSTRAINTS"), Name(s.constraintName)];
    var tail := [Fixed(KLimit), Cell(LInt, w.intText(s.limit)), Fixed(SSemicolon)];
    assert SpellStatement(w, s) == head + (middle + tail);
    SpelledSplit(ts, i, head, middle + tail);
    SpelledSplit(ts, i + 4, middle, tail);
    SeesFour(ts, i, Fixed(KGenerate), Fixed(KTable), Name(s.tableName), Fixed(KFrom));
    SeesFour(ts, i + 4, Name(s.typeName), Fixed(KWith), Name("CONSTRAINTS"), Name(s.constraintName));
    SeesThree(ts, i + 8, Fixed(KLimit), Cell(LInt, w.intText(s.limit)), Fixed(SSemicolon));
    TailFromParts(n, ts, i + 5, s.constraintName, s.limit, w.intText(s.limit));
    SeesKind(ts, i, Fixed(KGenerate));
    GenerateFromParts(n, ts, i, s, defined);
  }

  lemma TailFromParts(n: Numerals, ts: seq<Token>, i: nat, name: string, limit: int, text: string)
    requires Sees(ts, i, Fixed(KWith)) && Sees(ts, i + 1, Name("CONSTRAINTS")) && Sees(ts, i + 2, Name(name))
    requires Sees(ts, i + 3, Fixed(KLimit)) && Sees(ts, i + 4, Cell(LInt, text)) && n.intOf(text) == limit >= 0
    ensures In(ts, i) && ParseConstraintsAndLimit(n, ts, i) == Ok((name, limit), i + 5)
  {
    hide ProperTokens, Spelled, In, Is, Next, Skip, AtEnd, Taken;
  }

  lemma GenerateFromParts(n: Numerals, ts: seq<Token>, i: nat, s: Statement, defined: seq<string>)
    requires s.GenerateTable? && s.typeName in defined
    requires Sees(ts, i, Fixed(KGenerate)) && Sees(ts, i + 1, Fixed(KTable)) && Sees(ts, i + 2, Name(s.tableName))
    requires Sees(ts, i + 3, Fixed(KFrom)) && Sees(ts, i + 4, Name(s.typeName)) && Sees(ts, i + 10, Fixed(SSemicolon))
    requires In(ts, i + 5) && ParseConstraintsAndLimit(n, ts, i + 5) == Ok((s.constraintName, s.limit), i + 10)
    ensures ParseStatement(n, ts, i, defined) == Accepted(s, i + 11, defined)
  {
    hide ProperTokens, Spelled, In, Is, Next, Skip, AtEnd, Taken, ParseConstraintsAndLimit, Sees;
    Expected(ts, i, Fixed(KGenerate));
    NotKind(ts, i, Fixed(KGenerate), KDefine);
    NotKind(ts, i, Fixed(KGenerate), KLoad);
    Expected(ts, i + 1, Fixed(KTable));
    Expected(ts, i + 2, Name(s.tableName));
    Expected(ts, i + 3, Fixed(KFrom));
    Expected(ts, i + 4, Name(s.typeName));
    Expected(ts, i + 10, Fixed(SSemicolon));
  }

  /** A written statement is read back, and the cursor stands after it. */
  lemma ReadsStatement(n: Numerals, w: Writing, ts: seq<Token>, i: nat, s: Statement, defined: seq<string>)
    requires ProperTokens(ts) && Writable(n, w, s, defined) && Spelled(ts, i, SpellStatement(w, s))
    ensures In(ts, i) && !AtEnd(ts, i)
    ensures ParseStatement(n, ts, i, defined) == Accepted(s, i + |SpellStatement(w, s)|, DefinedAfter(s, defined))
  {
    hide ProperTokens, Spelled, ParseStatement, In, Is, Next, Skip, AtEnd, Taken;
    match s {
      case DefineType(_, _) => ReadsDefineType(n, w, ts, i, s, defined);
      case DefineConstraint(_, _, _) => ReadsDefineConstraint(n, w, ts, i, s, defined);
      case LoadData(_, _) => ReadsLoadData(n, w, ts, i, s, defined);
      case GenerateTable(_, _, _, _) => ReadsGenerateTable(n, w, ts, i, s, defined);
    }
    StatementHead(n, w, s, defined);
    CellAt(ts, i, SpellStatement(w, s), 0);
    SeesKind(ts, i, SpellStatement(w, s)[0]);
  }

  lemma StatementHead(n: Numerals, w: Writing, s: Statement, defined: seq<string>)
    requires Writable(n, w, s, defined)
    ensures SpellStatement(w, s) != []
  {
  }

  lemma {:induction false} ReadsFrom(n: Numerals, w: Writing, ts: seq<Token>, i: nat, ss: seq<Statement>, defined: seq<string>, p: Program)
    requires ProperTokens(ts) && WritableProgram(n, w, ss, defined)
    requires Spelled(ts, i, SpellProgram(w, ss)) && i + |SpellProgram(w, ss)| == |ts| - 1
    ensures ParseFrom(n, ts, i, defined, p) == Program(p.statements + ss, p.errors)
    decreases |ss|
  {
    hide ProperTokens, Spelled, ParseStatement, SpellStatement, Writable, ParseFrom, Recover, In, Is, Next, Skip, AtEnd, Taken;
    if ss == [] {
      LastIsEnd(ts);
      EndsAtEnd(n, ts, i, defined, p);
      assert p.statements + ss == p.statements;
    } else {
      SpelledSplit(ts, i, SpellStatement(w, ss[0]), SpellProgram(w, ss[1..]));
      ReadsStatement(n, w, ts, i, ss[0], defined);
      PassConsumes(n, ts, i, defined, p);
      var r := ParseStatement(n, ts, i, defined);
      ReadsFrom(n, w, ts, r.next, ss[1..], r.defined, Added(p, r));
      assert p.statements + [ss[0]] + ss[1..] == p.statements + ss;
    }
  }

  lemma LastIsEnd(ts: seq<Token>)
    requires ProperTokens(ts)
    ensures In(ts, |ts| - 1) && AtEnd(ts, |ts| - 1)
  {
  }

  /** Any token list that spells a program parses to that program without errors. */
  lemma WrittenProgramsParse(n: Numerals, w: Writing, ts: seq<Token>, ss: seq<Statement>)
    requires ProperTokens(ts) && WritableProgram(n, w, ss, [])
    requires Spelled(ts, 0, SpellProgram(w, ss)) && |SpellProgram(w, ss)| == |ts| - 1
    ensures ParseTokens(n, ts) == Program(ss, [])
  {
    ReadsFrom(n, w, ts, 0, ss, [], Program([], []));
    assert [] + ss == ss;
  }
}
