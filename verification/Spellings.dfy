/** The keywords of the language by their kinds, and that letter case does not matter to them. */
module Spellings {
  import opened Common
  import opened Lexing

  predicate Capitals(s: string) { forall i | 0 <= i < |s| :: 'A' <= s[i] <= 'Z' }

  /** The keywords, from their kinds to the words that spell them. */
  function Spelling(kind: TokenType): string {
    match kind
    case KDefine => "DEFINE"
    case KType => "TYPE"
    case KLoad => "LOAD"
    case KData => "DATA"
    case KInto => "INTO"
    case KFrom => "FROM"
    case KConstraint => "CONSTRAINT"
    case KOn => "ON"
    case KGenerate => "GENERATE"
    case KTable => "TABLE"
    case KWith => "WITH"
    case KLimit => "LIMIT"
    case KBetween => "BETWEEN"
    case KAnd => "AND"
    case KNot => "NOT"
    case KNull => "NULL"
    case KOrder => "ORDER"
    case KFloat => "FLOAT"
    case KInt => "INT"
    case KDatetime => "DATETIME"
    case KString => "STRING"
    case KEnum => "ENUM"
    case KDuring => "DURING"
    case KWhen => "WHEN"
    case KThen => "THEN"
    case KAvg => "AVG"
    case KOver => "OVER"
    case KInterval => "INTERVAL"
    case KRows => "ROWS"
    case KPartition => "PARTITION"
    case KBy => "BY"
    case KSession => "SESSION"
    case KGap => "GAP"
    case KUpdate => "UPDATE"
    case KModel => "MODEL"
    case KIncorporate => "INCORPORATE"
    case KWhere => "WHERE"
    case KAs => "AS"
    case KOf => "OF"
    case KVersion => "VERSION"
    case KInclude => "INCLUDE"
    case KMode => "MODE"
    case KFallback => "FALLBACK"
    case KSave => "SAVE"
    case _ => ""
  }

  /** Equal up to letter case. */
  predicate SameLetters(a: string, b: string) {
    |a| == |b| && forall i | 0 <= i < |a| ::
      a[i] == b[i] || (Alpha(a[i]) && Alpha(b[i]) && (a[i] as int - b[i] as int == 32 || b[i] as int - a[i] as int == 32))
  }

  lemma KnowsDefineTypeLoad()
    ensures Keyword("DEFINE") == Some(KDefine) && Capitals("DEFINE")
    ensures Keyword("TYPE") == Some(KType) && Capitals("TYPE")
    ensures Keyword("LOAD") == Some(KLoad) && Capitals("LOAD")
  {
  }

  lemma KnowsDataIntoFrom()
    ensures Keyword("DATA") == Some(KData) && Capitals("DATA")
    ensures Keyword("INTO") == Some(KInto) && Capitals("INTO")
    ensures Keyword("FROM") == Some(KFrom) && Capitals("FROM")
  {
  }

  lemma KnowsConstraintOnGenerate()
    ensures Keyword("CONSTRAINT") == Some(KConstraint) && Capitals("CONSTRAINT")
    ensures Keyword("ON") == Some(KOn) && Capitals("ON")
    ensures Keyword("GENERATE") == Some(KGenerate) && Capitals("GENERATE")
  {
  }

  lemma KnowsTableWithLimit()
    ensures Keyword("TABLE") == Some(KTable) && Capitals("TABLE")
    ensures Keyword("WITH") == Some(KWith) && Capitals("WITH")
    ensures Keyword("LIMIT") == Some(KLimit) && Capitals("LIMIT")
  {
  }

  lemma KnowsBetweenAndNot()
    ensures Keyword("BETWEEN") == Some(KBetween) && Capitals("BETWEEN")
    ensures Keyword("AND") == Some(KAnd) && Capitals("AND")
    ensures Keyword("NOT") == Some(KNot) && Capitals("NOT")
  {
  }

  lemma KnowsNullOrderFloat()
    ensures Keyword("NULL") == Some(KNull) && Capitals("NULL")
    ensures Keyword("ORDER") == Some(KOrder) && Capitals("ORDER")
    ensures Keyword("FLOAT") == Some(KFloat) && Capitals("FLOAT")
  {
  }

  lemma KnowsIntDatetimeString()
    ensures Keyword("INT") == Some(KInt) && Capitals("INT")
    ensures Keyword("DATETIME") == Some(KDatetime) && Capitals("DATETIME")
    ensures Keyword("STRING") == Some(KString) && Capitals("STRING")
  {
  }

  lemma KnowsEnumDuringWhen()
    ensures Keyword("ENUM") == Some(KEnum) && Capitals("ENUM")
    ensures Keyword("DURING") == Some(KDuring) && Capitals("DURING")
    ensures Keyword("WHEN") == Some(KWhen) && Capitals("WHEN")
  {
  }

  lemma KnowsThenAvgOver()
    ensures Keyword("THEN") == Some(KThen) && Capitals("THEN")
    ensures Keyword("AVG") == Some(KAvg) && Capitals("AVG")
    ensures Keyword("OVER") == Some(KOver) && Capitals("OVER")
  {
  }

  lemma KnowsIntervalRowsPartition()
    ensures Keyword("INTERVAL") == Some(KInterval) && Capitals("INTERVAL")
    ensures Keyword("ROWS") == Some(KRows) && Capitals("ROWS")
    ensures Keyword("PARTITION") == Some(KPartition) && Capitals("PARTITION")
  {
  }

  lemma KnowsBySessionGap()
    ensures Keyword("BY") == Some(KBy) && Capitals("BY")
    ensures Keyword("SESSION") == Some(KSession) && Capitals("SESSION")
    ensures Keyword("GAP") == Some(KGap) && Capitals("GAP")
  {
  }

  lemma KnowsUpdateModelIncorporate()
    ensures Keyword("UPDATE") == Some(KUpdate) && Capitals("UPDATE")
    ensures Keyword("MODEL") == Some(KModel) && Capitals("MODEL")
    ensures Keyword("INCORPORATE") == Some(KIncorporate) && Capitals("INCORPORATE")
  {
  }

  lemma KnowsWhereAsOf()
    ensures Keyword("WHERE") == Some(KWhere) && Capitals("WHERE")
    ensures Keyword("AS") == Some(KAs) && Capitals("AS")
    ensures Keyword("OF") == Some(KOf) && Capitals("OF")
  {
  }

  lemma KnowsVersionIncludeMode()
    ensures Keyword("VERSION") == Some(KVersion) && Capitals("VERSION")
    ensures Keyword("INCLUDE") == Some(KInclude) && Capitals("INCLUDE")
    ensures Keyword("MODE") == Some(KMode) && Capitals("MODE")
  {
  }

  lemma KnowsFallbackSave()
    ensures Keyword("FALLBACK") == Some(KFallback) && Capitals("FALLBACK")
    ensures Keyword("SAVE") == Some(KSave) && Capitals("SAVE")
  {
  }

  lemma OnlyDefineToFrom(word: string)
    ensures Keyword(word) == Some(KDefine) ==> word == "DEFINE"
    ensures Keyword(word) == Some(KType) ==> word == "TYPE"
    ensures Keyword(word) == Some(KLoad) ==> word == "LOAD"
    ensures Keyword(word) == Some(KData) ==> word == "DATA"
    ensures Keyword(word) == Some(KInto) ==> word == "INTO"
    ensures Keyword(word) == Some(KFrom) ==> word == "FROM"
  {
  }

  lemma OnlyConstraintToLimit(word: string)
    ensures Keyword(word) == Some(KConstraint) ==> word == "CONSTRAINT"
    ensures Keyword(word) == Some(KOn) ==> word == "ON"
    ensures Keyword(word) == Some(KGenerate) ==> word == "GENERATE"
    ensures Keyword(word) == Some(KTable) ==> word == "TABLE"
    ensures Keyword(word) == Some(KWith) ==> word == "WITH"
    ensures Keyword(word) == Some(KLimit) ==> word == "LIMIT"
  {
  }

  lemma OnlyBetweenToFloat(word: string)
    ensures Keyword(word) == Some(KBetween) ==> word == "BETWEEN"
    ensures Keyword(word) == Some(KAnd) ==> word == "AND"
    ensures Keyword(word) == Some(KNot) ==> word == "NOT"
    ensures Keyword(word) == Some(KNull) ==> word == "NULL"
    ensures Keyword(word) == Some(KOrder) ==> word == "ORDER"
    ensures Keyword(word) == Some(KFloat) ==> word == "FLOAT"
  {
  }

  lemma OnlyIntToWhen(word: string)
    ensures Keyword(word) == Some(KInt) ==> word == "INT"
    ensures Keyword(word) == Some(KDatetime) ==> word == "DATETIME"
    ensures Keyword(word) == Some(KString) ==> word == "STRING"
    ensures Keyword(word) == Some(KEnum) ==> word == "ENUM"
    ensures Keyword(word) == Some(KDuring) ==> word == "DURING"
    ensures Keyword(word) == Some(KWhen) ==> word == "WHEN"
  {
  }

  lemma OnlyThenToPartition(word: string)
    ensures Keyword(word) == Some(KThen) ==> word == "THEN"
    ensures Keyword(word) == Some(KAvg) ==> word == "AVG"
    ensures Keyword(word) == Some(KOver) ==> word == "OVER"
    ensures Keyword(word) == Some(KInterval) ==> word == "INTERVAL"
    ensures Keyword(word) == Some(KRows) ==> word == "ROWS"
    ensures Keyword(word) == Some(KPartition) ==> word == "PARTITION"
  {
  }

  lemma OnlyByToIncorporate(word: string)
    ensures Keyword(word) == Some(KBy) ==> word == "BY"
    ensures Keyword(word) == Some(KSession) ==> word == "SESSION"
    ensures Keyword(word) == Some(KGap) ==> word == "GAP"
    ensures Keyword(word) == Some(KUpdate) ==> word == "UPDATE"
    ensures Keyword(word) == Some(KModel) ==> word == "MODEL"
    ensures Keyword(word) == Some(KIncorporate) ==> word == "INCORPORATE"
  {
  }

  lemma OnlyWhereToMode(word: string)
    ensures Keyword(word) == Some(KWhere) ==> word == "WHERE"
    ensures Keyword(word) == Some(KAs) ==> word == "AS"
    ensures Keyword(word) == Some(KOf) ==> word == "OF"
    ensures Keyword(word) == Some(KVersion) ==> word == "VERSION"
    ensures Keyword(word) == Some(KInclude) ==> word == "INCLUDE"
    ensures Keyword(word) == Some(KMode) ==> word == "MODE"
  {
  }

  lemma OnlyFallbackToSave(word: string)
    ensures Keyword(word) == Some(KFallback) ==> word == "FALLBACK"
    ensures Keyword(word) == Some(KSave) ==> word == "SAVE"
  {
  }

  /** What the lexer takes for a keyword is spelled like that. */
  lemma KeywordIsSpelled(word: string, kind: TokenType)
    ensures Keyword(word) == Some(kind) ==> Spelling(kind) == word && word != ""
  {
    if Keyword(word) == Some(kind) {
      OnlyKeywords(word);
      hide Keyword;
      match kind
      case KDefine => OnlyDefineToFrom(word);
      case KType => OnlyDefineToFrom(word);
      case KLoad => OnlyDefineToFrom(word);
      case KData => OnlyDefineToFrom(word);
      case KInto => OnlyDefineToFrom(word);
      case KFrom => OnlyDefineToFrom(word);
      case KConstraint => OnlyConstraintToLimit(word);
      case KOn => OnlyConstraintToLimit(word);
      case KGenerate => OnlyConstraintToLimit(word);
      case KTable => OnlyConstraintToLimit(word);
      case KWith => OnlyConstraintToLimit(word);
      case KLimit => OnlyConstraintToLimit(word);
      case KBetween => OnlyBetweenToFloat(word);
      case KAnd => OnlyBetweenToFloat(word);
      case KNot => OnlyBetweenToFloat(word);
      case KNull => OnlyBetweenToFloat(word);
      case KOrder => OnlyBetweenToFloat(word);
      case KFloat => OnlyBetweenToFloat(word);
      case KInt => OnlyIntToWhen(word);
      case KDatetime => OnlyIntToWhen(word);
      case KString => OnlyIntToWhen(word);
      case KEnum => OnlyIntToWhen(word);
      case KDuring => OnlyIntToWhen(word);
      case KWhen => OnlyIntToWhen(word);
      case KThen => OnlyThenToPartition(word);
      case KAvg => OnlyThenToPartition(word);
      case KOver => OnlyThenToPartition(word);
      case KInterval => OnlyThenToPartition(word);
      case KRows => OnlyThenToPartition(word);
      case KPartition => OnlyThenToPartition(word);
      case KBy => OnlyByToIncorporate(word);
      case KSession => OnlyByToIncorporate(word);
      case KGap => OnlyByToIncorporate(word);
      case KUpdate => OnlyByToIncorporate(word);
      case KModel => OnlyByToIncorporate(word);
      case KIncorporate => OnlyByToIncorporate(word);
      case KWhere => OnlyWhereToMode(word);
      case KAs => OnlyWhereToMode(word);
      case KOf => OnlyWhereToMode(word);
      case KVersion => OnlyWhereToMode(word);
      case KInclude => OnlyWhereToMode(word);
      case KMode => OnlyWhereToMode(word);
      case KFallback => OnlyFallbackToSave(word);
      case KSave => OnlyFallbackToSave(word);
      case _ =>
    }
  }

  lemma OnlyKeywords(word: string)
    ensures Keyword(word).Some? ==> Spelling(Keyword(word).value) != ""
  {
  }

  lemma NoCapitals()
    ensures Capitals("")
  {
  }

  /** Every spelling is taken for its keyword. */
  lemma SpellingIsKeyword(kind: TokenType)
    ensures Spelling(kind) != "" ==> Keyword(Spelling(kind)) == Some(kind)
    ensures Capitals(Spelling(kind))
  {
    hide Keyword, Capitals;
    assert Capitals("") by { NoCapitals(); }
    match kind
    case KDefine => KnowsDefineTypeLoad();
    case KType => KnowsDefineTypeLoad();
    case KLoad => KnowsDefineTypeLoad();
    case KData => KnowsDataIntoFrom();
    case KInto => KnowsDataIntoFrom();
    case KFrom => KnowsDataIntoFrom();
    case KConstraint => KnowsConstraintOnGenerate();
    case KOn => KnowsConstraintOnGenerate();
    case KGenerate => KnowsConstraintOnGenerate();
    case KTable => KnowsTableWithLimit();
    case KWith => KnowsTableWithLimit();
    case KLimit => KnowsTableWithLimit();
    case KBetween => KnowsBetweenAndNot();
    case KAnd => KnowsBetweenAndNot();
    case KNot => KnowsBetweenAndNot();
    case KNull => KnowsNullOrderFloat();
    case KOrder => KnowsNullOrderFloat();
    case KFloat => KnowsNullOrderFloat();
    case KInt => KnowsIntDatetimeString();
    case KDatetime => KnowsIntDatetimeString();
    case KString => KnowsIntDatetimeString();
    case KEnum => KnowsEnumDuringWhen();
    case KDuring => KnowsEnumDuringWhen();
    case KWhen => KnowsEnumDuringWhen();
    case KThen => KnowsThenAvgOver();
    case KAvg => KnowsThenAvgOver();
    case KOver => KnowsThenAvgOver();
    case KInterval => KnowsIntervalRowsPartition();
    case KRows => KnowsIntervalRowsPartition();
    case KPartition => KnowsIntervalRowsPartition();
    case KBy => KnowsBySessionGap();
    case KSession => KnowsBySessionGap();
    case KGap => KnowsBySessionGap();
    case KUpdate => KnowsUpdateModelIncorporate();
    case KModel => KnowsUpdateModelIncorporate();
    case KIncorporate => KnowsUpdateModelIncorporate();
    case KWhere => KnowsWhereAsOf();
    case KAs => KnowsWhereAsOf();
    case KOf => KnowsWhereAsOf();
    case KVersion => KnowsVersionIncludeMode();
    case KInclude => KnowsVersionIncludeMode();
    case KMode => KnowsVersionIncludeMode();
    case KFallback => KnowsFallbackSave();
    case KSave => KnowsFallbackSave();
    case _ =>
  }

  lemma UpperLetters(word: string, upper: string)
    requires Capitals(upper)
    ensures Upper(word) == upper <==> SameLetters(word, upper)
  {
    if SameLetters(word, upper) {
      assert Upper(word) == upper;
    }
    if Upper(word) == upper {
      forall i | 0 <= i < |word| ensures word[i] == upper[i] || (Alpha(word[i]) && word[i] as int - upper[i] as int == 32) {
        assert Upper(word)[i] == upper[i];
      }
    }
  }

  /** A word is of a keyword's kind exactly when it is its spelling in any letter case; every other
      word is an identifier. */
  lemma WordKinds(word: string, kind: TokenType)
    requires kind != LIdent
    ensures KindOfWord(word) == kind <==> Spelling(kind) != "" && SameLetters(word, Spelling(kind))
  {
    hide Keyword, Upper, Spelling;
    KeywordIsSpelled(Upper(word), kind);
    SpellingIsKeyword(kind);
    UpperLetters(word, Spelling(kind));
  }

  // ---------------------------------------------------------------- symbols

  function Symbol(kind: TokenType): string {
    match kind
    case SLbrace => "{"
    case SRbrace => "}"
    case SLparen => "("
    case SRparen => ")"
    case SLbracket => "["
    case SRbracket => "]"
    case SComma => ","
    case SColon => ":"
    case SSemicolon => ";"
    case SDot => "."
    case SEq => "="
    case SGt => ">"
    case SLt => "<"
    case SGe => ">="
    case SLe => "<="
    case SMinus => "-"
    case _ => ""
  }

  lemma SymbolIsSpelled(c: char, kind: TokenType)
    ensures SymbolOf(c) == Some(kind) ==> Symbol(kind) == [c]
  {
  }

  lemma SpelledIsSymbol(c: char, kind: TokenType)
    ensures Symbol(kind) == [c] ==> SymbolOf(c) == Some(kind)
  {
    if Symbol(kind) == [c] {
      assert Symbol(kind)[0] == c;
      assert |Symbol(kind)| == 1;
    }
  }

  lemma SymbolOfIsSpelled(c: char, kind: TokenType)
    ensures SymbolOf(c) == Some(kind) <==> Symbol(kind) == [c]
  {
    hide Symbol, SymbolOf;
    SymbolIsSpelled(c, kind);
    SpelledIsSymbol(c, kind);
  }

  /** A symbol is the longest one that stands there. */
  lemma SymbolKinds(s: string, j: nat, e: nat, kind: TokenType)
    requires j < |s|
    ensures SymbolAt(s, j) == Some(Lexeme(e, kind)) <==>
            && j < e <= |s| && Symbol(kind) == s[j..e]
            && (e == j + 1 && e < |s| && s[e] == '=' ==> s[j] != '>' && s[j] != '<')
  {
    hide Symbol;
    SymbolOfIsSpelled(s[j], kind);
    assert s[j..j + 1] == [s[j]];
    LongSymbols(kind);
    if j + 1 < |s| { assert s[j..j + 2] == [s[j], s[j + 1]]; }
    if j < e <= |s| { assert |s[j..e]| == e - j; }
  }

  lemma LongSymbols(kind: TokenType)
    ensures |Symbol(kind)| <= 2
    ensures |Symbol(kind)| == 2 <==> kind == SGe || kind == SLe
    ensures Symbol(SGe) == ['>', '='] && Symbol(SLe) == ['<', '=']
  {
  }

  // ---------------------------------------------------------------- numbers and places

  /** A number without a dot and without an exponent is an integer, and the only kind of one; no digit
      follows a number. */
  lemma NumberShape(s: string, j: nat)
    requires j < |s|
    ensures var l := NumberAt(s, j);
            && (l.kind == LInt <==> forall k | j < k < l.end :: Digit(s[k]))
            && (l.end == |s| || !Digit(s[l.end]))
            && (forall k | j < k < l.end :: Digit(s[k]) || s[k] == '.' || s[k] == 'e' || s[k] == 'E' || s[k] == '+' || s[k] == '-')
            && (l.kind == LInt && l.end < |s| ==> !ExponentAt(s, l.end) && !FractionAt(s, l.end))
  {
    hide DigitsEnd;
    var whole := DigitsEnd(s, j + 1);
    var mantissa := FractionEnd(s, whole);
    assert FractionAt(s, whole) ==> s[whole] == '.' && !Digit(s[whole]);
    assert ExponentAt(s, mantissa) ==> !Digit(s[mantissa]);
  }

  function Breaks(s: string): nat {
    if s == "" then 0 else Breaks(s[..|s| - 1]) + if s[|s| - 1] == '\n' then 1 else 0
  }

  /** The line is one more than the line breaks in front, the column one more than the characters since
      the last of them. */
  lemma {:induction false} PlaceIsCounted(s: string, i: nat) returns (start: nat)
    requires i <= |s|
    ensures LineAt(s, i) == 1 + Breaks(s[..i])
    ensures start <= i && (start == 0 || s[start - 1] == '\n') && (forall k | start <= k < i :: s[k] != '\n')
    ensures ColumnAt(s, i) == i - start + 1
    decreases i
  {
    if i == 0 {
      start := 0;
    } else {
      assert s[..i][..i - 1] == s[..i - 1];
      start := PlaceIsCounted(s, i - 1);
      if s[i - 1] == '\n' { start := i; }
    }
  }
}
