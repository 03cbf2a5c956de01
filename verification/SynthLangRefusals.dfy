/** Modifiers in any order, and the statements that are refused with an error of their own. */
module SynthLangRefusals {
  import opened Common
  import opened Lexing
  import opened Schema
  import opened SynthLang

  /** Some token from `i` to before `end` is of this kind. */
  predicate Among(ts: seq<Token>, i: nat, end: nat, kind: TokenType)
    requires end <= |ts|
  {
    exists j :: i <= j < end && ts[j].kind == kind
  }

  lemma AmongSplit(ts: seq<Token>, i: nat, k: nat, end: nat, kind: TokenType)
    requires i <= k <= end <= |ts|
    ensures Among(ts, i, end, kind) <==> Among(ts, i, k, kind) || Among(ts, k, end, kind)
  {
  }

  /** NOT, ORDER, or NULL behind NOT. */
  predicate ModifierAt(ts: seq<Token>, j: nat) {
    j < |ts| && (ts[j].kind == KNot || ts[j].kind == KOrder || (ts[j].kind == KNull && j > 0 && ts[j - 1].kind == KNot))
  }

  /** What one modifier is: NOT, with or without NULL behind it, or ORDER. */
  lemma OneModifier(ts: seq<Token>, i: nat) returns (k: nat)
    requires In(ts, i) && (Is(ts, i, KNot) || Is(ts, i, KOrder))
    ensures i < k && In(ts, k) && k == if Is(ts, i, KNot) then Skip(ts, Next(ts, i), KNull) else Next(ts, i)
    ensures Among(ts, i, k, KNot) <==> Is(ts, i, KNot)
    ensures Among(ts, i, k, KOrder) <==> Is(ts, i, KOrder)
    ensures forall j | i <= j < k :: ModifierAt(ts, j)
    ensures ts[k - 1].kind == KNot ==> ts[k].kind != KNull
  {
    hide ProperTokens;
    k := if Is(ts, i, KNot) then Skip(ts, Next(ts, i), KNull) else Next(ts, i);
    assert ts[i].kind == KNot || ts[i].kind == KOrder;
  }

  /** Modifiers may come in any order and number: NOT makes the column not null, ORDER makes it an order
      column. */
  lemma {:induction false} ModifiersRead(ts: seq<Token>, i: nat, notNull: bool, isOrder: bool)
    requires In(ts, i)
    ensures var m := ParseModifiers(ts, i, notNull, isOrder);
            && (m.notNull <==> notNull || Among(ts, i, m.next, KNot))
            && (m.isOrder <==> isOrder || Among(ts, i, m.next, KOrder))
    decreases |ts| - i
  {
    hide ProperTokens, Is, Next, Skip, Among;
    if Is(ts, i, KNot) || Is(ts, i, KOrder) {
      var k := OneModifier(ts, i);
      var notNull', isOrder' := notNull || Is(ts, i, KNot), isOrder || (!Is(ts, i, KNot) && Is(ts, i, KOrder));
      ModifiersRead(ts, k, notNull', isOrder');
      var m := ParseModifiers(ts, k, notNull', isOrder');
      AmongSplit(ts, i, k, m.next, KNot);
      AmongSplit(ts, i, k, m.next, KOrder);
      KindOfModifier(ts, i);
    } else {
      NoneAmong(ts, i);
    }
  }

  lemma KindOfModifier(ts: seq<Token>, i: nat)
    requires In(ts, i)
    ensures Is(ts, i, KNot) <==> ts[i].kind == KNot
    ensures Is(ts, i, KOrder) <==> ts[i].kind == KOrder
  {
  }

  lemma NoneAmong(ts: seq<Token>, i: nat)
    requires i <= |ts|
    ensures forall kind :: !Among(ts, i, i, kind)
  {
  }

  /** They end before the first token that is neither NOT, NULL behind a NOT, nor ORDER. */
  lemma {:induction false} ModifiersEnd(ts: seq<Token>, i: nat, notNull: bool, isOrder: bool)
    requires In(ts, i)
    ensures var end := ParseModifiers(ts, i, notNull, isOrder).next;
            && (forall j | i <= j < end :: ModifierAt(ts, j))
            && ts[end].kind !in {KNot, KOrder} && (end > i && ts[end - 1].kind == KNot ==> ts[end].kind != KNull)
    decreases |ts| - i
  {
    hide ProperTokens, Among, Is, Next, Skip, ModifierAt;
    KindOfModifier(ts, i);
    if Is(ts, i, KNot) || Is(ts, i, KOrder) {
      var k := OneModifier(ts, i);
      ModifiersEnd(ts, k, notNull || Is(ts, i, KNot), isOrder || Is(ts, i, KOrder));
    }
  }

  // ---------------------------------------------------------------- refusals

  lemma At(ts: seq<Token>, i: nat, kind: TokenType)
    requires ProperTokens(ts) && i < |ts| && ts[i].kind == kind != TEof
    ensures In(ts, i) && Is(ts, i, kind) && Next(ts, i) == i + 1 && Skip(ts, i, kind) == i + 1 && In(ts, i + 1)
    ensures forall other | other != kind :: !Is(ts, i, other) && Skip(ts, i, other) == i
  {
  }

  predicate Starts(ts: seq<Token>, i: nat, a: TokenType, b: TokenType, c: TokenType, d: TokenType, e: TokenType) {
    && i + 5 < |ts| && ts[i].kind == a && ts[i + 1].kind == b && ts[i + 2].kind == c && ts[i + 3].kind == d && ts[i + 4].kind == e
  }

  /** Loading into a type that was not declared is refused as such, and reported as such. */
  lemma LoadRefused(n: Numerals, ts: seq<Token>, i: nat, defined: seq<string>, p: Program)
    requires In(ts, i) && i + 3 < |ts| && ts[i].kind == KLoad && ts[i + 1].kind == KData && ts[i + 2].kind == KInto && ts[i + 3].kind == LIdent
    requires ts[i + 3].lexeme !in defined
    ensures Added(p, ParseStatement(n, ts, i, defined)) == p.(errors := p.errors + [UndefinedType])
  {
    At(ts, i, KLoad);
    At(ts, i + 1, KData);
    At(ts, i + 2, KInto);
    At(ts, i + 3, LIdent);
    hide In, ProperTokens, Is, Next, Skip, AtEnd, ParseDefineType, ParseDefineConstraint, ParseGenerateTable;
  }

  /** Generating from such a type likewise. */
  lemma GenerateRefused(n: Numerals, ts: seq<Token>, i: nat, defined: seq<string>, p: Program)
    requires In(ts, i) && Starts(ts, i, KGenerate, KTable, LIdent, KFrom, LIdent) && ts[i + 4].lexeme !in defined
    ensures Added(p, ParseStatement(n, ts, i, defined)) == p.(errors := p.errors + [UndefinedType])
  {
    At(ts, i, KGenerate);
    At(ts, i + 1, KTable);
    At(ts, i + 2, LIdent);
    At(ts, i + 3, KFrom);
    At(ts, i + 4, LIdent);
    hide In, ProperTokens, Is, Next, Skip, AtEnd, ParseConstraintsAndLimit;
  }

  /** And so constraints on one. */
  lemma ConstraintRefused(n: Numerals, ts: seq<Token>, i: nat, defined: seq<string>, p: Program)
    requires In(ts, i) && Starts(ts, i, KDefine, KConstraint, LIdent, KOn, LIdent) && ts[i + 4].lexeme !in defined
    ensures Added(p, ParseStatement(n, ts, i, defined)) == p.(errors := p.errors + [UndefinedType])
  {
    At(ts, i, KDefine);
    At(ts, i + 1, KConstraint);
    At(ts, i + 2, LIdent);
    At(ts, i + 3, KOn);
    At(ts, i + 4, LIdent);
    hide In, ProperTokens, Is, Next, Skip, AtEnd, ParseItems, ParseDefineType;
  }

  /** A constraint on a declared type whose first item starts with DURING, WHEN, AVG or OVER is refused
      as not supported. */
  lemma LaterFormsRefused(n: Numerals, ts: seq<Token>, i: nat, defined: seq<string>, p: Program)
    requires In(ts, i) && Starts(ts, i, KDefine, KConstraint, LIdent, KOn, LIdent) && ts[i + 4].lexeme in defined
    requires i + 7 < |ts| && ts[i + 5].kind == SLbrace && ts[i + 6].kind in {KDuring, KWhen, KAvg, KOver}
    ensures Added(p, ParseStatement(n, ts, i, defined)) == p.(errors := p.errors + [UnsupportedInV1])
  {
    At(ts, i, KDefine);
    At(ts, i + 1, KConstraint);
    At(ts, i + 2, LIdent);
    At(ts, i + 3, KOn);
    At(ts, i + 4, LIdent);
    At(ts, i + 5, SLbrace);
    At(ts, i + 6, ts[i + 6].kind);
    hide In, ProperTokens, Is, Next, Skip, AtEnd, ParseConstraintItem, ParseDefineType;
  }

  /** So is one with such a word behind an accepted item and a comma. */
  lemma LaterFormsRefusedBehind(n: Numerals, ts: seq<Token>, i: nat, before: seq<ConstraintItem>)
    requires In(ts, i) && !Conditional(ts, i) && !Aggregating(ts, i)
    ensures var item := ParseConstraintItem(n, ts, i);
            item.Ok? && Is(ts, item.next, SComma) ==>
              var j := Next(ts, item.next);
              ts[j].kind in {KDuring, KWhen, KAvg, KOver} ==> ParseItems(n, ts, i, before) == Err(UnsupportedInV1, j)
  {
    hide ProperTokens, ParseConstraintItem;
  }

  /** A column whose name is already used by one before it is refused as a duplicate. */
  lemma DuplicateColumnRefused(n: Numerals, ts: seq<Token>, i: nat, seen: seq<ColumnDef>, k: nat)
    requires In(ts, i) && k < |seen|
    ensures var column := ParseColumnDef(n, ts, i);
            column.Ok? && column.value.name == seen[k].name ==> ParseColumns(n, ts, i, seen) == Err(ParseError.DuplicateColumnName, column.next)
  {
    hide ProperTokens, ParseColumnDef;
  }

  // ---------------------------------------------------------------- words that may be missing

  /** DATA, INTO, FROM and the semicolon may be missing: a type and a file are enough to load. */
  lemma ShortLoad(n: Numerals, ts: seq<Token>, i: nat, defined: seq<string>)
    requires In(ts, i) && i + 3 < |ts| && ts[i].kind == KLoad && ts[i + 1].kind == LIdent && ts[i + 2].kind == LString
    requires ts[i + 1].lexeme in defined && ts[i + 3].kind != SSemicolon
    ensures ParseStatement(n, ts, i, defined) ==
            Accepted(LoadData(ts[i + 1].lexeme, ts[i + 2].lexeme[1..|ts[i + 2].lexeme| - 1]), i + 3, defined)
  {
    At(ts, i, KLoad);
    At(ts, i + 1, LIdent);
    At(ts, i + 2, LString);
    assert Skip(ts, i + 3, SSemicolon) == i + 3;
    hide In, ProperTokens, Is, Next, Skip, AtEnd, ParseDefineType, ParseDefineConstraint, ParseGenerateTable;
  }
}
