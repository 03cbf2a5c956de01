/** What is known of every program the parser accepts: its types are valid schemas, and the types it
    mentions have been declared. */
module SynthLangProperties {
  import opened Common
  import opened Lexing
  import opened Schema
  import opened SynthLang

  // ---------------------------------------------------------------- accepted types are valid

  predicate ColumnsOk(columns: seq<ColumnDef>) {
    DistinctNames(columns) && forall i | 0 <= i < |columns| :: ColumnOk(columns[i])
  }

  lemma OneMoreColumn(columns: seq<ColumnDef>, c: ColumnDef)
    requires ColumnsOk(columns) && ColumnOk(c) && !HasColumn(columns, c.name)
    ensures ColumnsOk(columns + [c])
  {
    hide ColumnOk;
    var more := columns + [c];
    forall i, j | 0 <= i < j < |more| ensures more[i].name != more[j].name {
      if j == |columns| {
        assert columns[i].name != c.name;
      }
    }
  }

  lemma {:induction false} ColumnsAreOk(n: Numerals, ts: seq<Token>, i: nat, seen: seq<ColumnDef>)
    requires In(ts, i) && ColumnsOk(seen)
    ensures var r := ParseColumns(n, ts, i, seen); r.Ok? ==> r.value != [] && ColumnsOk(r.value)
    decreases |ts| - i
  {
    hide ProperTokens, ParseColumnDef, ColumnOk, ColumnsOk, HasColumn;
    var column := ParseColumnDef(n, ts, i);
    if column.Ok? && !HasColumn(seen, column.value.name) {
      OneMoreColumn(seen, column.value);
      if Is(ts, column.next, SComma) {
        var j := Next(ts, column.next);
        if !AtEnd(ts, j) && !Is(ts, j, SRbrace) {
          ColumnsAreOk(n, ts, j, seen + [column.value]);
        }
      }
    }
  }

  predicate ValidStatement(s: Statement) {
    s.DefineType? ==> WellFormed(Schema(s.typeName, s.columns))
  }

  lemma NoColumns()
    ensures ColumnsOk([])
  {
  }

  lemma DefineTypeIsValid(n: Numerals, ts: seq<Token>, i: nat, defined: seq<string>)
    requires In(ts, i)
    ensures var r := ParseDefineType(n, ts, i, defined); r.Accepted? ==> ValidStatement(r.statement)
  {
    hide ProperTokens, ParseColumns, ColumnOk, DistinctNames, In, Is;
    var b := Next(ts, Skip(ts, i, KType));
    NoColumns();
    ColumnsAreOk(n, ts, Next(ts, b), []);
  }

  /** Every type definition that the parser accepts is a valid schema. */
  lemma StatementIsValid(n: Numerals, ts: seq<Token>, i: nat, defined: seq<string>)
    requires In(ts, i)
    ensures var r := ParseStatement(n, ts, i, defined); r.Accepted? ==> ValidStatement(r.statement)
  {
    hide ProperTokens, Is, ParseDefineType, ParseDefineConstraint, ParseLoadData, ParseGenerateTable, WellFormed;
    DefineTypeIsValid(n, ts, Next(ts, i), defined);
    ConstraintRefers(n, ts, Next(ts, i), defined);
    LoadRefers(ts, i, defined);
    GenerateRefers(n, ts, i, defined);
  }

  /** Statements other than type definitions declare nothing and refer to a declared type. */
  predicate OnlyRefers(r: Outcome, defined: seq<string>) {
    r.defined == defined && (r.Accepted? ==> !r.statement.DefineType? && r.statement.typeName in defined)
  }

  lemma ConstraintRefers(n: Numerals, ts: seq<Token>, i: nat, defined: seq<string>)
    requires In(ts, i)
    ensures OnlyRefers(ParseDefineConstraint(n, ts, i, defined), defined)
  {
    hide In, Is, AtEnd, Next, Skip, Word, ParseItems;
  }

  lemma LoadRefers(ts: seq<Token>, i: nat, defined: seq<string>)
    requires In(ts, i)
    ensures OnlyRefers(ParseLoadData(ts, i, defined), defined)
  {
    hide In, Is, AtEnd, Next, Skip, Word, Unquoted;
  }

  lemma GenerateRefers(n: Numerals, ts: seq<Token>, i: nat, defined: seq<string>)
    requires In(ts, i)
    ensures OnlyRefers(ParseGenerateTable(n, ts, i, defined), defined)
  {
    hide In, Is, AtEnd, Next, Skip, Word, ParseConstraintsAndLimit;
  }

  lemma {:induction false} TypesAreValidFrom(n: Numerals, ts: seq<Token>, i: nat, defined: seq<string>, p: Program)
    requires In(ts, i) && forall s | s in p.statements :: ValidStatement(s)
    ensures forall s | s in ParseFrom(n, ts, i, defined, p).statements :: ValidStatement(s)
    decreases |ts| - i
  {
    hide ProperTokens, ParseStatement, Recover, ParseFrom, ValidStatement;
    if AtEnd(ts, i) {
      EndsAtEnd(n, ts, i, defined, p);
    } else {
      var r := ParseStatement(n, ts, i, defined);
      StatementIsValid(n, ts, i, defined);
      PassConsumes(n, ts, i, defined, p);
      TypesAreValidFrom(n, ts, if r.Accepted? then r.next else Recover(ts, r.next), r.defined, Added(p, r));
    }
  }

  lemma AcceptedTypesAreValid(n: Numerals, ts: seq<Token>, s: Statement)
    requires ProperTokens(ts) && s in ParseTokens(n, ts).statements && s.DefineType?
    ensures WellFormed(Schema(s.typeName, s.columns))
  {
    TypesAreValidFrom(n, ts, 0, [], Program([], []));
    assert ValidStatement(s);
  }

  // ---------------------------------------------------------------- passes

  lemma {:induction false} ProgramIsShortFrom(n: Numerals, ts: seq<Token>, i: nat, defined: seq<string>, p: Program)
    requires In(ts, i)
    ensures var q := ParseFrom(n, ts, i, defined, p);
            |q.statements| + |q.errors| <= |p.statements| + |p.errors| + (|ts| - 1 - i)
    decreases |ts| - i
  {
    hide ProperTokens, ParseStatement, Recover, ParseFrom;
    if AtEnd(ts, i) {
      EndsAtEnd(n, ts, i, defined, p);
    } else {
      var r := ParseStatement(n, ts, i, defined);
      PassConsumes(n, ts, i, defined, p);
      ProgramIsShortFrom(n, ts, if r.Accepted? then r.next else Recover(ts, r.next), r.defined, Added(p, r));
    }
  }

  /** There are no more statements and errors together than tokens before the end token. */
  lemma ProgramIsShort(n: Numerals, ts: seq<Token>)
    requires ProperTokens(ts)
    ensures |ParseTokens(n, ts).statements| + |ParseTokens(n, ts).errors| <= |ts| - 1
  {
    ProgramIsShortFrom(n, ts, 0, [], Program([], []));
  }

  // ---------------------------------------------------------------- signs

  /** The operand of a comparison: it is rejected exactly when the token taken is no number, and
      negated exactly when a minus sign follows the number. */
  lemma OperandSign(n: Numerals, ts: seq<Token>, i: nat)
    requires In(ts, i) && i > 0
    ensures var r, t := ParseOperand(n, ts, i), Taken(ts, i);
            && (r.Err? <==> !IsNumber(t))
            && (r.Ok? ==> r.value == if Is(ts, Next(ts, i), SMinus) then -n.realOf(t.lexeme) else n.realOf(t.lexeme))
            && (r.Ok? && !AtEnd(ts, i) ==> r.next == if Is(ts, i + 1, SMinus) then i + 2 else i + 1)
  {
    hide ProperTokens;
  }

  /** A bound of BETWEEN or of a range: the sign is looked for in front. */
  lemma BoundSign(n: Numerals, ts: seq<Token>, i: nat)
    requires In(ts, i) && i > 0
    ensures var r, signed := ParseBound(n, ts, i), Is(ts, i, SMinus);
            var t := Taken(ts, Skip(ts, i, SMinus));
            && (r.Err? <==> !IsNumber(t))
            && (r.Ok? ==> r.value == if signed then -n.realOf(t.lexeme) else n.realOf(t.lexeme))
  {
    hide ProperTokens;
  }

  /** So a comparison with a minus sign of its own in front of the number is never accepted, where
      BETWEEN accepts such a number. */
  lemma SignedComparisonRejected(n: Numerals, ts: seq<Token>, i: nat)
    requires In(ts, i) && In(ts, i + 1) && In(ts, i + 2) && Is(ts, i, LIdent) && Is(ts, i + 2, SMinus)
    requires OperatorOf(ts[i + 1].kind) != None && OperatorOf(ts[i + 1].kind) != Some(Between)
    ensures ParseConstraintItem(n, ts, i).Err?
  {
    hide ProperTokens, ParseOperand, ParseBetween;
    assert Next(ts, i) == i + 1 && Next(ts, i + 1) == i + 2;
    OperandSign(n, ts, i + 2);
  }

  // ---------------------------------------------------------------- references

  /** DEFINE TYPE and this name stand at `p`. */
  predicate Header(ts: seq<Token>, p: nat, name: string) {
    p + 2 < |ts| && ts[p].kind == KDefine && ts[p + 1].kind == KType && ts[p + 2].kind == LIdent && ts[p + 2].lexeme == name
  }

  predicate HeadersBefore(ts: seq<Token>, i: nat, names: seq<string>) {
    forall k | 0 <= k < |names| :: HeaderBefore(ts, i, names[k])
  }

  predicate HeaderBefore(ts: seq<Token>, i: nat, name: string) {
    exists p: nat :: p < i && Header(ts, p, name)
  }

  predicate RefersTo(s: Statement, names: seq<string>) {
    !s.DefineType? ==> s.typeName in names
  }

  /** After the statement at `i` the names declared are as before, or have one more, which stands
      in the header at `i` and is the name of the statement if it was accepted. */
  predicate Declares(ts: seq<Token>, i: nat, defined: seq<string>, r: Outcome) {
    || OnlyRefers(r, defined)
    || (&& |r.defined| == |defined| + 1 && r.defined == defined + [r.defined[|defined|]]
        && Header(ts, i, r.defined[|defined|])
        && (r.Accepted? ==> r.statement.DefineType? && r.statement.typeName == r.defined[|defined|]))
  }

  lemma DefineTypeDeclares(n: Numerals, ts: seq<Token>, i: nat, defined: seq<string>)
    requires In(ts, i) && Is(ts, i, KDefine) && Is(ts, Next(ts, i), KType)
    ensures Declares(ts, i, defined, ParseDefineType(n, ts, Next(ts, i), defined))
  {
    hide In, Is, AtEnd, Next, Skip, Header, ParseColumns, ColumnOk;
    var a := Skip(ts, Next(ts, i), KType);
    if Is(ts, a, LIdent) {
      NameInHeader(ts, i, a);
    }
  }

  lemma NameInHeader(ts: seq<Token>, i: nat, a: nat)
    requires In(ts, i) && Is(ts, i, KDefine) && Is(ts, Next(ts, i), KType)
    requires a == Skip(ts, Next(ts, i), KType) && Is(ts, a, LIdent)
    ensures Header(ts, i, Word(ts, a))
  {
    hide ProperTokens;
  }

  lemma StatementDeclares(n: Numerals, ts: seq<Token>, i: nat, defined: seq<string>)
    requires In(ts, i)
    ensures Declares(ts, i, defined, ParseStatement(n, ts, i, defined))
  {
    hide ProperTokens, Header, Is, ParseDefineType, ParseDefineConstraint, ParseLoadData, ParseGenerateTable;
    if Is(ts, i, KDefine) && Is(ts, Next(ts, i), KType) {
      DefineTypeDeclares(n, ts, i, defined);
    } else {
      ConstraintRefers(n, ts, Next(ts, i), defined);
      LoadRefers(ts, i, defined);
      GenerateRefers(n, ts, i, defined);
    }
  }

  lemma HeadersStay(ts: seq<Token>, i: nat, j: nat, names: seq<string>)
    requires HeadersBefore(ts, i, names) && i <= j
    ensures HeadersBefore(ts, j, names)
  {
    hide Header;
    forall k | 0 <= k < |names| ensures HeaderBefore(ts, j, names[k]) {
      assert HeaderBefore(ts, i, names[k]);
    }
  }

  lemma {:induction false} ReferencesFrom(n: Numerals, ts: seq<Token>, i: nat, defined: seq<string>, p: Program)
    requires In(ts, i) && HeadersBefore(ts, i, defined)
    requires forall s | s in p.statements && !s.DefineType? :: HeaderBefore(ts, |ts|, s.typeName)
    ensures forall s | s in ParseFrom(n, ts, i, defined, p).statements && !s.DefineType? :: HeaderBefore(ts, |ts|, s.typeName)
    decreases |ts| - i
  {
    hide ProperTokens, ParseStatement, Recover, ParseFrom, Header, HeaderBefore, StartsStatement;
    if AtEnd(ts, i) {
      EndsAtEnd(n, ts, i, defined, p);
    } else {
      var r := ParseStatement(n, ts, i, defined);
      PassConsumes(n, ts, i, defined, p);
      StatementDeclares(n, ts, i, defined);
      var next := if r.Accepted? then r.next else Recover(ts, r.next);
      HeadersStay(ts, i, next, defined);
      HeadersStay(ts, i, |ts|, defined);
      if r.defined != defined {
        NewHeader(ts, i, next, r.defined[|defined|]);
      }
      ReferencesFrom(n, ts, next, r.defined, Added(p, r));
    }
  }

  lemma NewHeader(ts: seq<Token>, i: nat, j: nat, name: string)
    requires Header(ts, i, name) && i < j
    ensures HeaderBefore(ts, j, name)
  {
  }

  /** Every type that an accepted statement refers to has been declared by a type header. */
  lemma ReferencesAreDeclared(n: Numerals, ts: seq<Token>, s: Statement)
    requires ProperTokens(ts) && s in ParseTokens(n, ts).statements && !s.DefineType?
    ensures HeaderBefore(ts, |ts|, s.typeName)
  {
    ReferencesFrom(n, ts, 0, [], Program([], []));
  }

  // ---------------------------------------------------------------- the passes of a parse

  /** One pass of the loop: where it starts and what comes of it. */
  datatype Pass = Pass(at: nat, outcome: Outcome)

  function Passes(n: Numerals, ts: seq<Token>, i: nat, defined: seq<string>): seq<Pass>
    requires In(ts, i)
    decreases |ts| - i
  {
    hide ProperTokens, ParseStatement;
    if AtEnd(ts, i) then []
    else
      var r := ParseStatement(n, ts, i, defined);
      [Pass(i, r)] + Passes(n, ts, if r.Accepted? then r.next else Recover(ts, r.next), r.defined)
  }

  lemma PassesStep(n: Numerals, ts: seq<Token>, i: nat, defined: seq<string>)
    requires In(ts, i) && !AtEnd(ts, i)
    ensures var r := ParseStatement(n, ts, i, defined);
            var next := if r.Accepted? then r.next else Recover(ts, r.next);
            In(ts, next) && Passes(n, ts, i, defined) == [Pass(i, r)] + Passes(n, ts, next, r.defined)
  {
    hide ProperTokens, ParseStatement;
  }

  function Statements(ps: seq<Pass>): seq<Statement> {
    if ps == [] then []
    else (if ps[0].outcome.Accepted? then [ps[0].outcome.statement] else []) + Statements(ps[1..])
  }

  lemma {:induction false} PassesGiveStatements(n: Numerals, ts: seq<Token>, i: nat, defined: seq<string>, p: Program)
    requires In(ts, i)
    ensures ParseFrom(n, ts, i, defined, p).statements == p.statements + Statements(Passes(n, ts, i, defined))
    decreases |ts| - i
  {
    hide ProperTokens, ParseStatement, Recover, StartsStatement, ParseFrom, Reported;
    if AtEnd(ts, i) {
      EndsAtEnd(n, ts, i, defined, p);
      assert Passes(n, ts, i, defined) == [];
    } else {
      hide Passes;
      var r := ParseStatement(n, ts, i, defined);
      var next := if r.Accepted? then r.next else Recover(ts, r.next);
      PassConsumes(n, ts, i, defined, p);
      PassesStep(n, ts, i, defined);
      PassesGiveStatements(n, ts, next, r.defined, Added(p, r));
      var rest := Passes(n, ts, next, r.defined);
      assert ([Pass(i, r)] + rest)[1..] == rest;
    }
  }

  /** The pass accepts a definition of this type. */
  predicate Defines(p: Pass, name: string) {
    p.outcome.Accepted? && p.outcome.statement.DefineType? && p.outcome.statement.typeName == name
  }

  /** The pass accepts a statement that refers to a type. */
  predicate Refers(p: Pass) { p.outcome.Accepted? && !p.outcome.statement.DefineType? }

  /** The pass starts with the header of this type, but rejects the definition. */
  predicate OnlyHeads(ts: seq<Token>, p: Pass, name: string) { p.outcome.Rejected? && Header(ts, p.at, name) }

  ghost predicate DefinedBy(ps: seq<Pass>, k: nat, name: string)
    requires k <= |ps|
  {
    exists j :: 0 <= j < k && Defines(ps[j], name)
  }

  /** The statement accepted in pass `k` has its type from rejected definitions alone. */
  ghost predicate Misled(ts: seq<Token>, ps: seq<Pass>, k: nat)
    requires k < |ps|
  {
    && Refers(ps[k])
    && (exists j :: 0 <= j < k && OnlyHeads(ts, ps[j], ps[k].outcome.statement.typeName))
    && forall j | 0 <= j < k :: !Defines(ps[j], ps[k].outcome.statement.typeName)
  }

  /** Each name declared so far was put there by one of the passes. */
  predicate Declared(ts: seq<Token>, ps: seq<Pass>, k: nat, names: seq<string>)
    requires k <= |ps|
  {
    forall i | 0 <= i < |names| :: DeclaredBy(ts, ps, k, names[i])
  }

  predicate DeclaredBy(ts: seq<Token>, ps: seq<Pass>, k: nat, name: string)
    requires k <= |ps|
  {
    exists j :: 0 <= j < k && (Defines(ps[j], name) || OnlyHeads(ts, ps[j], name))
  }

  /** What one pass refers to was declared by a pass before it. */
  ghost predicate Sourced(ts: seq<Token>, ps: seq<Pass>, k: nat)
    requires k < |ps|
  {
    Refers(ps[k]) ==> DeclaredBy(ts, ps, k, ps[k].outcome.statement.typeName)
  }

  lemma DeclaredLater(ts: seq<Token>, ps: seq<Pass>, p: Pass, names: seq<string>)
    requires Declared(ts, ps, |ps|, names)
    ensures Declared(ts, ps + [p], |ps|, names) && Declared(ts, ps + [p], |ps| + 1, names)
  {
    hide Defines, OnlyHeads;
    forall i | 0 <= i < |names| ensures DeclaredBy(ts, ps + [p], |ps|, names[i]) && DeclaredBy(ts, ps + [p], |ps| + 1, names[i]) {
      assert DeclaredBy(ts, ps, |ps|, names[i]);
      var j :| 0 <= j < |ps| && (Defines(ps[j], names[i]) || OnlyHeads(ts, ps[j], names[i]));
      assert (ps + [p])[j] == ps[j];
    }
  }

  lemma DeclaresNext(ts: seq<Token>, ps: seq<Pass>, p: Pass, defined: seq<string>)
    requires Declared(ts, ps, |ps|, defined) && Declares(ts, p.at, defined, p.outcome)
    ensures Declared(ts, ps + [p], |ps| + 1, p.outcome.defined)
    ensures Sourced(ts, ps + [p], |ps|)
  {
    hide Header;
    var more := ps + [p];
    DeclaredLater(ts, ps, p, defined);
    assert more[|ps|] == p;
    if !OnlyRefers(p.outcome, defined) {
      var name := p.outcome.defined[|defined|];
      assert Defines(more[|ps|], name) || OnlyHeads(ts, more[|ps|], name);
      assert DeclaredBy(ts, more, |ps| + 1, name);
    }
  }

  lemma {:induction false} PassesAreSourced(n: Numerals, ts: seq<Token>, before: seq<Pass>, i: nat, defined: seq<string>)
    requires In(ts, i) && Declared(ts, before, |before|, defined) && forall k: nat | k < |before| :: Sourced(ts, before, k)
    ensures var all := before + Passes(n, ts, i, defined); forall k: nat | k < |all| :: Sourced(ts, all, k)
    decreases |ts| - i
  {
    hide ProperTokens, ParseStatement, Recover, StartsStatement, ParseFrom, Added, Sourced, Declared, Declares;
    if AtEnd(ts, i) {
      assert before + Passes(n, ts, i, defined) == before;
    } else {
      hide Passes;
      var r := ParseStatement(n, ts, i, defined);
      var next := if r.Accepted? then r.next else Recover(ts, r.next);
      PassConsumes(n, ts, i, defined, Program([], []));
      StatementDeclares(n, ts, i, defined);
      var more := before + [Pass(i, r)];
      DeclaresNext(ts, before, Pass(i, r), defined);
      forall k: nat | k < |more| ensures Sourced(ts, more, k) {
        if k < |before| { SourcedStays(ts, before, Pass(i, r), k); }
      }
      PassesStep(n, ts, i, defined);
      PassesAreSourced(n, ts, more, next, r.defined);
      assert before + Passes(n, ts, i, defined) == more + Passes(n, ts, next, r.defined);
    }
  }

  lemma SourcedStays(ts: seq<Token>, ps: seq<Pass>, p: Pass, k: nat)
    requires k < |ps| && Sourced(ts, ps, k)
    ensures Sourced(ts, ps + [p], k)
  {
    hide Defines, OnlyHeads;
    if Refers(ps[k]) {
      var name := ps[k].outcome.statement.typeName;
      var j :| 0 <= j < k && (Defines(ps[j], name) || OnlyHeads(ts, ps[j], name));
      assert (ps + [p])[j] == ps[j];
    }
  }

  /** Each statement refers to types whose definitions were accepted before it. */
  predicate RefersBack(ss: seq<Statement>) {
    forall k | 0 <= k < |ss| && !ss[k].DefineType? :: DefinedBefore(ss, k, ss[k].typeName)
  }

  predicate DefinedBefore(ss: seq<Statement>, k: nat, name: string)
    requires k <= |ss|
  {
    exists j :: 0 <= j < k && ss[j].DefineType? && ss[j].typeName == name
  }

  /** Every accepted statement in these passes has an accepted definition of its type before it. */
  ghost predicate PassesReferBack(ps: seq<Pass>) {
    forall k: nat | k < |ps| && Refers(ps[k]) :: DefinedBy(ps, k, ps[k].outcome.statement.typeName)
  }

  lemma {:induction false} DefinedInStatements(ps: seq<Pass>, name: string)
    ensures DefinedBy(ps, |ps|, name) <==> DefinedBefore(Statements(ps), |Statements(ps)|, name)
    decreases |ps|
  {
    if ps != [] {
      var n := |ps| - 1;
      DefinedInStatements(ps[..n], name);
      StatementsSnoc(ps);
      var ss := Statements(ps[..n]);
      assert DefinedBy(ps, |ps|, name) <==> DefinedBy(ps[..n], n, name) || Defines(ps[n], name) by {
        if DefinedBy(ps[..n], n, name) {
          var j :| 0 <= j < n && Defines(ps[..n][j], name);
          assert Defines(ps[j], name);
        }
        if j :| 0 <= j < |ps| && Defines(ps[j], name) {
          if j < n { assert Defines(ps[..n][j], name); }
        }
      }
      if ps[n].outcome.Accepted? {
        DefinedSnoc(ss, ps[n].outcome.statement, name);
      } else {
        assert Statements(ps) == ss;
      }
    }
  }

  lemma DefinedSnoc(ss: seq<Statement>, s: Statement, name: string)
    ensures DefinedBefore(ss + [s], |ss| + 1, name) <==> DefinedBefore(ss, |ss|, name) || (s.DefineType? && s.typeName == name)
    ensures forall k | 0 <= k <= |ss| :: DefinedBefore(ss + [s], k, name) <==> DefinedBefore(ss, k, name)
  {
    var more := ss + [s];
    assert forall j | 0 <= j < |ss| :: more[j] == ss[j];
    assert more[|ss|] == s;
    forall k | 0 <= k <= |ss| ensures DefinedBefore(more, k, name) <==> DefinedBefore(ss, k, name) {
      if DefinedBefore(ss, k, name) {
        var j :| 0 <= j < k && ss[j].DefineType? && ss[j].typeName == name;
        assert more[j].DefineType?;
      }
    }
    assert DefinedBefore(more, |ss|, name) ==> DefinedBefore(more, |ss| + 1, name);
  }

  lemma {:induction false} StatementsSnoc(ps: seq<Pass>)
    requires ps != []
    ensures var n := |ps| - 1;
            Statements(ps) == Statements(ps[..n]) + if ps[n].outcome.Accepted? then [ps[n].outcome.statement] else []
    decreases |ps|
  {
    var n := |ps| - 1;
    if n > 0 {
      StatementsSnoc(ps[1..]);
      assert ps[1..][..n - 1] == ps[..n][1..];
    } else {
      assert ps[1..] == [] && ps[..0] == [] && Statements([]) == [];
    }
  }

  /** The same of the statements alone. */
  lemma {:induction false} StatementsReferBack(ps: seq<Pass>)
    ensures PassesReferBack(ps) <==> RefersBack(Statements(ps))
    decreases |ps|
  {
    if ps != [] {
      var n := |ps| - 1;
      var before, ss := ps[..n], Statements(ps[..n]);
      StatementsReferBack(before);
      StatementsSnoc(ps);
      PassesSnoc(before, ps[n]);
      assert before + [ps[n]] == ps;
      if ps[n].outcome.Accepted? {
        var s := ps[n].outcome.statement;
        RefersSnoc(ss, s);
        if !s.DefineType? {
          DefinedInStatements(before, s.typeName);
        }
      } else {
        assert Statements(ps) == ss;
      }
    }
  }

  lemma PassesSnoc(ps: seq<Pass>, p: Pass)
    ensures PassesReferBack(ps + [p]) <==>
            PassesReferBack(ps) && (Refers(p) ==> DefinedBy(ps, |ps|, p.outcome.statement.typeName))
  {
    hide Defines;
    var more := ps + [p];
    assert forall j | 0 <= j < |ps| :: more[j] == ps[j];
    forall k, name | 0 <= k <= |ps| ensures DefinedBy(more, k, name) <==> DefinedBy(ps, k, name) {
      if DefinedBy(ps, k, name) {
        var j :| 0 <= j < k && Defines(ps[j], name);
        assert Defines(more[j], name);
      }
      if DefinedBy(more, k, name) {
        var j :| 0 <= j < k && Defines(more[j], name);
        assert Defines(ps[j], name);
      }
    }
    assert more[|ps|] == p;
  }

  lemma RefersSnoc(ss: seq<Statement>, s: Statement)
    ensures RefersBack(ss + [s]) <==> RefersBack(ss) && (!s.DefineType? ==> DefinedBefore(ss, |ss|, s.typeName))
  {
    var more := ss + [s];
    assert forall j | 0 <= j < |ss| :: more[j] == ss[j];
    assert more[|ss|] == s;
    forall k, name | 0 <= k <= |ss| ensures DefinedBefore(more, k, name) <==> DefinedBefore(ss, k, name) {
      DefinedSnoc(ss, s, name);
    }
  }

  /** For every token list: each accepted statement has an accepted definition of its type before
      it exactly when none has its type from rejected definitions alone. */
  lemma RefersBackExactly(n: Numerals, ts: seq<Token>)
    requires ProperTokens(ts)
    ensures var ps := Passes(n, ts, 0, []);
            RefersBack(ParseTokens(n, ts).statements) <==> forall k: nat | k < |ps| :: !Misled(ts, ps, k)
  {
    assert In(ts, 0);
    hide ProperTokens, Passes, ParseFrom, Defines, OnlyHeads, RefersBack, Sourced;
    var ps := Passes(n, ts, 0, []);
    PassesGiveStatements(n, ts, 0, [], Program([], []));
    assert [] + Statements(ps) == Statements(ps);
    StatementsReferBack(ps);
    PassesAreSourced(n, ts, [], 0, []);
    assert [] + ps == ps;
    forall k: nat | k < |ps| && Refers(ps[k])
      ensures DefinedBy(ps, k, ps[k].outcome.statement.typeName) <==> !Misled(ts, ps, k)
    {
      SourcedOrMisled(ts, ps, k);
    }
  }

  lemma SourcedOrMisled(ts: seq<Token>, ps: seq<Pass>, k: nat)
    requires k < |ps| && Refers(ps[k]) && Sourced(ts, ps, k)
    ensures DefinedBy(ps, k, ps[k].outcome.statement.typeName) <==> !Misled(ts, ps, k)
  {
    hide Defines, OnlyHeads;
  }

  /** In a program without errors no definition is rejected, so nothing is misled. */
  lemma NoErrorsMeansDefined(n: Numerals, ts: seq<Token>)
    requires ProperTokens(ts) && ParseTokens(n, ts).errors == []
    ensures RefersBack(ParseTokens(n, ts).statements)
  {
    assert In(ts, 0);
    hide ProperTokens, Passes, ParseFrom, Defines, RefersBack;
    RefersBackExactly(n, ts);
    PassesGiveErrors(n, ts, 0, [], Program([], []));
  }

  lemma {:induction false} PassesGiveErrors(n: Numerals, ts: seq<Token>, i: nat, defined: seq<string>, p: Program)
    requires In(ts, i)
    ensures p.errors <= ParseFrom(n, ts, i, defined, p).errors
    ensures ParseFrom(n, ts, i, defined, p).errors == [] ==>
              forall k: nat | k < |Passes(n, ts, i, defined)| :: Passes(n, ts, i, defined)[k].outcome.Accepted?
    decreases |ts| - i
  {
    hide ProperTokens, ParseStatement, Recover, ParseFrom;
    if AtEnd(ts, i) {
      EndsAtEnd(n, ts, i, defined, p);
    } else {
      var r := ParseStatement(n, ts, i, defined);
      var next := if r.Accepted? then r.next else Recover(ts, r.next);
      PassConsumes(n, ts, i, defined, p);
      PassesStep(n, ts, i, defined);
      PassesGiveErrors(n, ts, next, r.defined, Added(p, r));
      assert Passes(n, ts, i, defined) == [Pass(i, r)] + Passes(n, ts, next, r.defined);
    }
  }

  /** A type header declares its name whatever becomes of the definition. */
  lemma HeaderDeclares(n: Numerals, ts: seq<Token>, i: nat, defined: seq<string>, name: string)
    requires In(ts, i) && Header(ts, i, name)
    ensures ParseStatement(n, ts, i, defined).defined == defined + [name]
  {
    hide ParseColumns, ColumnOk;
    assert !AtEnd(ts, i) && !AtEnd(ts, i + 1) && !AtEnd(ts, i + 2);
  }

  /** Whenever a rejected definition is followed by an accepted statement about its type, and no
      definition of the type was accepted in between or before, the program refers to a type that
      it does not define. */
  lemma RejectedHeaderMisleads(n: Numerals, ts: seq<Token>, j: nat, k: nat)
    requires ProperTokens(ts) && j < k < |Passes(n, ts, 0, [])|
    requires var ps := Passes(n, ts, 0, []);
             && Refers(ps[k]) && OnlyHeads(ts, ps[j], ps[k].outcome.statement.typeName)
             && !DefinedBy(ps, k, ps[k].outcome.statement.typeName)
    ensures !RefersBack(ParseTokens(n, ts).statements)
  {
    assert In(ts, 0);
    hide ProperTokens, Passes, ParseTokens, Defines, OnlyHeads, RefersBack;
    RefersBackExactly(n, ts);
    assert Misled(ts, Passes(n, ts, 0, []), k);
  }

  /** The tokens of: DEFINE TYPE a; LOAD DATA INTO a FROM 'x' */
  predicate RejectedThenLoaded(ts: seq<Token>) {
    && ProperTokens(ts) && |ts| == 11
    && ts[0].kind == KDefine && ts[1].kind == KType && ts[2].kind == LIdent && ts[2].lexeme == "a" && ts[3].kind == SSemicolon
    && ts[4].kind == KLoad && ts[5].kind == KData && ts[6].kind == KInto && ts[7].kind == LIdent && ts[7].lexeme == "a"
    && ts[8].kind == KFrom && ts[9].kind == LString && ts[9].lexeme == "'x'" && ts[10].kind == TEof
  }

  /** One such program: its only accepted statement loads into a type whose definition was rejected. */
  lemma FailedDefinitionStillDeclares(n: Numerals, ts: seq<Token>)
    requires RejectedThenLoaded(ts)
    ensures ParseTokens(n, ts) == Program([LoadData("a", "x")], [SyntaxError])
    ensures !RefersBack([LoadData("a", "x")])
  {
    hide ProperTokens, ParseStatement, ParseFrom, Recover, RefersBack;
    FirstPass(n, ts);
    PassConsumes(n, ts, 0, [], Program([], []));
    assert [] + [SyntaxError] == [SyntaxError];
    SecondPass(n, ts);
    PassConsumes(n, ts, 4, ["a"], Program([], [SyntaxError]));
    assert [] + [LoadData("a", "x")] == [LoadData("a", "x")];
    EndsAtEnd(n, ts, 10, ["a"], Program([LoadData("a", "x")], [SyntaxError]));
    Unresolved(LoadData("a", "x"));
  }

  lemma Unresolved(s: Statement)
    requires !s.DefineType?
    ensures !RefersBack([s])
  {
    assert !DefinedBefore([s], 0, [s][0].typeName);
  }

  lemma FirstPass(n: Numerals, ts: seq<Token>)
    requires ProperTokens(ts) && |ts| > 4 && ts[0].kind == KDefine && ts[1].kind == KType && ts[2].kind == LIdent && ts[2].lexeme == "a"
    requires ts[3].kind == SSemicolon && ts[4].kind == KLoad
    ensures ParseStatement(n, ts, 0, []) == Rejected(SyntaxError, 3, ["a"]) && Recover(ts, 3) == 4
  {
    hide ParseColumns;
    assert [] + ["a"] == ["a"];
  }

  lemma SecondPass(n: Numerals, ts: seq<Token>)
    requires ProperTokens(ts) && |ts| == 11 && ts[4].kind == KLoad && ts[5].kind == KData && ts[6].kind == KInto
    requires ts[7].kind == LIdent && ts[7].lexeme == "a" && ts[8].kind == KFrom && ts[9].kind == LString && ts[9].lexeme == "'x'"
    ensures ParseStatement(n, ts, 4, ["a"]) == Accepted(LoadData("a", "x"), 10, ["a"])
  {
    assert ts[9].lexeme[1..2] == "x";
  }
}
