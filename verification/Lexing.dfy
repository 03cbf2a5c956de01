/** What a list of tokens for a source text is: text between tokens is white space or comments, and
    each token is as long as it can be. The description fixes the tokens. */
module Lexing {
  import opened Common

  datatype TokenType =
    | KDefine | KType | KLoad | KData | KInto | KFrom
    | KConstraint | KOn | KGenerate | KTable | KWith | KLimit
    | KBetween | KAnd | KNot | KNull | KOrder
    | KFloat | KInt | KDatetime | KString | KEnum
    | KDuring | KWhen | KThen
    | KAvg | KOver | KInterval
    | KRows | KPartition | KBy | KSession | KGap
    | KUpdate | KModel | KIncorporate | KWhere
    | KAs | KOf | KVersion
    | KInclude | KMode | KFallback | KSave
    | LFloat | LInt | LString | LIdent
    | SLbrace | SRbrace | SLparen | SRparen | SLbracket | SRbracket
    | SComma | SColon | SSemicolon | SDot | SEq | SGt | SLt | SGe | SLe | SMinus
    | TEof

  datatype Token = Token(kind: TokenType, lexeme: string, line: nat, column: nat)

  /** Neither a literal nor the end token. */
  predicate IsFixed(k: TokenType) {
    !(k.TEof? || k.LIdent? || k.LString? || k.LInt? || k.LFloat?)
  }

  function Keyword(word: string): (k: Option<TokenType>)
    ensures k.Some? ==> IsFixed(k.value)
  {
    match word
    case "DEFINE" => Some(KDefine)
    case "TYPE" => Some(KType)
    case "LOAD" => Some(KLoad)
    case "DATA" => Some(KData)
    case "INTO" => Some(KInto)
    case "FROM" => Some(KFrom)
    case "CONSTRAINT" => Some(KConstraint)
    case "ON" => Some(KOn)
    case "GENERATE" => Some(KGenerate)
    case "TABLE" => Some(KTable)
    case "WITH" => Some(KWith)
    case "LIMIT" => Some(KLimit)
    case "BETWEEN" => Some(KBetween)
    case "AND" => Some(KAnd)
    case "NOT" => Some(KNot)
    case "NULL" => Some(KNull)
    case "ORDER" => Some(KOrder)
    case "FLOAT" => Some(KFloat)
    case "INT" => Some(KInt)
    case "DATETIME" => Some(KDatetime)
    case "STRING" => Some(KString)
    case "ENUM" => Some(KEnum)
    case "DURING" => Some(KDuring)
    case "WHEN" => Some(KWhen)
    case "THEN" => Some(KThen)
    case "AVG" => Some(KAvg)
    case "OVER" => Some(KOver)
    case "INTERVAL" => Some(KInterval)
    case "ROWS" => Some(KRows)
    case "PARTITION" => Some(KPartition)
    case "BY" => Some(KBy)
    case "SESSION" => Some(KSession)
    case "GAP" => Some(KGap)
    case "UPDATE" => Some(KUpdate)
    case "MODEL" => Some(KModel)
    case "INCORPORATE" => Some(KIncorporate)
    case "WHERE" => Some(KWhere)
    case "AS" => Some(KAs)
    case "OF" => Some(KOf)
    case "VERSION" => Some(KVersion)
    case "INCLUDE" => Some(KInclude)
    case "MODE" => Some(KMode)
    case "FALLBACK" => Some(KFallback)
    case "SAVE" => Some(KSave)
    case _ => None
  }

  /** The kind of a word; letter case does not matter to keywords. */
  function KindOfWord(word: string): (k: TokenType)
    ensures IsFixed(k) || k == LIdent
  {
    var keyword := Keyword(Upper(word));
    if keyword.Some? then keyword.value else LIdent
  }

  // ---------------------------------------------------------------- characters and positions

  predicate White(c: char) { c == ' ' || c == '\t' || c == '\r' || c == '\n' }
  predicate Digit(c: char) { '0' <= c <= '9' }
  predicate Alpha(c: char) { 'a' <= c <= 'z' || 'A' <= c <= 'Z' }
  predicate WordStart(c: char) { Alpha(c) || c == '_' }
  predicate WordChar(c: char) { Alpha(c) || Digit(c) || c == '_' }

  function Upper(s: string): string {
    seq(|s|, i requires 0 <= i < |s| => if 'a' <= s[i] <= 'z' then s[i] - 'a' + 'A' else s[i])
  }

  /** Line and column of position `i`, counted from one. */
  function LineAt(s: string, i: nat): nat
    requires i <= |s|
  {
    if i == 0 then 1 else LineAt(s, i - 1) + if s[i - 1] == '\n' then 1 else 0
  }

  function ColumnAt(s: string, i: nat): nat
    requires i <= |s|
  {
    if i == 0 || s[i - 1] == '\n' then 1 else ColumnAt(s, i - 1) + 1
  }

  // ---------------------------------------------------------------- skipped text

  predicate CommentAt(s: string, i: nat) { i + 1 < |s| && s[i] == '-' && s[i + 1] == '-' }

  /** The first line break from `i` on, or the end. */
  function LineEnd(s: string, i: nat): (e: nat)
    requires i <= |s|
    ensures i <= e <= |s| && (e == |s| || s[e] == '\n')
    ensures forall k | i <= k < e :: s[k] != '\n'
    decreases |s| - i
  {
    if i == |s| || s[i] == '\n' then i else LineEnd(s, i + 1)
  }

  /** `s[i..j]` is white space and comments, each comment up to the end of its line. */
  predicate Skippable(s: string, i: nat, j: nat)
    requires i <= j <= |s|
    decreases j - i
  {
    || i == j
    || (White(s[i]) && Skippable(s, i + 1, j))
    || (CommentAt(s, i) && i < LineEnd(s, i) <= j && Skippable(s, LineEnd(s, i), j))
  }

  /** Nothing more can be skipped at `j`. */
  predicate Stops(s: string, j: nat) { j >= |s| || (!White(s[j]) && !CommentAt(s, j)) }

  lemma {:induction false} SkipUnique(s: string, i: nat, j: nat, j': nat)
    requires i <= j <= |s| && i <= j' <= |s|
    requires Skippable(s, i, j) && Skippable(s, i, j') && Stops(s, j) && Stops(s, j')
    ensures j == j'
    decreases |s| - i
  {
    if i < j && i < j' {
      if White(s[i]) {
        SkipUnique(s, i + 1, j, j');
      } else {
        SkipUnique(s, LineEnd(s, i), j, j');
      }
    }
  }

  lemma {:induction false} SkipMore(s: string, i: nat, j: nat, k: nat)
    requires i <= j <= k <= |s| && Skippable(s, i, j) && Skippable(s, j, k)
    ensures Skippable(s, i, k)
    decreases j - i
  {
    if i < j {
      if White(s[i]) && Skippable(s, i + 1, j) {
        SkipMore(s, i + 1, j, k);
      } else {
        SkipMore(s, LineEnd(s, i), j, k);
      }
    }
  }

  // ---------------------------------------------------------------- lexemes

  /** The end of the longest run of digits from `i` on. */
  function DigitsEnd(s: string, i: nat): (e: nat)
    requires i <= |s|
    ensures i <= e <= |s| && (e == |s| || !Digit(s[e]))
    ensures forall k | i <= k < e :: Digit(s[k])
    decreases |s| - i
  {
    if i < |s| && Digit(s[i]) then DigitsEnd(s, i + 1) else i
  }

  /** A fraction starts at `i`: a dot that is not followed by another dot. */
  predicate FractionAt(s: string, i: nat) { i < |s| && s[i] == '.' && (i + 1 < |s| ==> s[i + 1] != '.') }
  predicate ExponentAt(s: string, i: nat) { i < |s| && (s[i] == 'e' || s[i] == 'E') }

  function FractionEnd(s: string, i: nat): (e: nat)
    requires i <= |s|
    ensures i <= e <= |s|
  {
    if FractionAt(s, i) then DigitsEnd(s, i + 1) else i
  }

  function ExponentEnd(s: string, i: nat): (e: nat)
    requires i <= |s|
    ensures i <= e <= |s|
  {
    if !ExponentAt(s, i) then i
    else if i + 1 < |s| && (s[i + 1] == '+' || s[i + 1] == '-') then DigitsEnd(s, i + 2)
    else DigitsEnd(s, i + 1)
  }

  datatype Lexeme = Lexeme(end: nat, kind: TokenType)

  /** A number whose sign or first digit is `s[j]`. */
  function NumberAt(s: string, j: nat): (l: Lexeme)
    requires j < |s|
    ensures j < l.end <= |s| && (l.kind == LInt || l.kind == LFloat)
  {
    var whole := DigitsEnd(s, j + 1);
    var end := ExponentEnd(s, FractionEnd(s, whole));
    Lexeme(end, if end == whole then LInt else LFloat)
  }

  /** The end of the longest run of word characters from `i` on. */
  function WordEnd(s: string, i: nat): (e: nat)
    requires i <= |s|
    ensures i <= e <= |s| && (e == |s| || !WordChar(s[e]))
    ensures forall k | i <= k < e :: WordChar(s[k])
    decreases |s| - i
  {
    if i < |s| && WordChar(s[i]) then WordEnd(s, i + 1) else i
  }

  function WordAt(s: string, j: nat): (l: Lexeme)
    requires j < |s|
    ensures j < l.end <= |s| && (IsFixed(l.kind) || l.kind == LIdent)
  {
    var end := WordEnd(s, j + 1);
    Lexeme(end, KindOfWord(s[j..end]))
  }

  /** The first quote from `i` on, or the end. */
  function QuoteEnd(s: string, i: nat): (e: nat)
    requires i <= |s|
    ensures i <= e <= |s| && (e == |s| || s[e] == '\'')
    ensures forall k | i <= k < e :: s[k] != '\''
    decreases |s| - i
  {
    if i == |s| || s[i] == '\'' then i else QuoteEnd(s, i + 1)
  }

  function SymbolOf(c: char): (k: Option<TokenType>)
    ensures k.Some? ==> IsFixed(k.value)
  {
    match c
    case '{' => Some(SLbrace)
    case '}' => Some(SRbrace)
    case '(' => Some(SLparen)
    case ')' => Some(SRparen)
    case '[' => Some(SLbracket)
    case ']' => Some(SRbracket)
    case ',' => Some(SComma)
    case ':' => Some(SColon)
    case ';' => Some(SSemicolon)
    case '.' => Some(SDot)
    case '=' => Some(SEq)
    case '>' => Some(SGt)
    case '<' => Some(SLt)
    case '-' => Some(SMinus)
    case _ => None
  }

  function SymbolAt(s: string, j: nat): (l: Option<Lexeme>)
    requires j < |s|
    ensures l.Some? ==> j < l.value.end <= |s| && IsFixed(l.value.kind)
  {
    if (s[j] == '>' || s[j] == '<') && j + 1 < |s| && s[j + 1] == '=' then
      Some(Lexeme(j + 2, if s[j] == '>' then SGe else SLe))
    else
      var kind := SymbolOf(s[j]);
      if kind == None then None else Some(Lexeme(j + 1, kind.value))
  }

  /** The longest token at `j`, if one starts there; a minus sign right before a digit belongs to
      the number. */
  function LexemeAt(s: string, j: nat): (l: Option<Lexeme>)
    requires j < |s|
    ensures l.Some? ==> j < l.value.end <= |s| && l.value.kind != TEof
  {
    if WordStart(s[j]) then Some(WordAt(s, j))
    else if Digit(s[j]) || (s[j] == '-' && j + 1 < |s| && Digit(s[j + 1])) then Some(NumberAt(s, j))
    else if s[j] == '\'' then
      if QuoteEnd(s, j + 1) == |s| then None else Some(Lexeme(QuoteEnd(s, j + 1) + 1, LString))
    else SymbolAt(s, j)
  }

  /** `s[j..e]` is the token at `j`. */
  predicate IsLexeme(s: string, j: nat, e: nat, kind: TokenType) {
    j < |s| && Stops(s, j) && LexemeAt(s, j) == Some(Lexeme(e, kind))
  }

  /** Identifiers are maximal runs of word characters, strings run from quote to quote. */
  lemma LexemeShape(s: string, j: nat, e: nat, kind: TokenType)
    requires IsLexeme(s, j, e, kind)
    ensures j < e <= |s|
    ensures kind == LIdent ==> WordStart(s[j]) && (forall k | j <= k < e :: WordChar(s[k])) && (e == |s| || !WordChar(s[e]))
    ensures kind == LIdent ==> Keyword(Upper(s[j..e])) == None
    ensures kind == LString ==> e - j >= 2 && s[j] == '\'' && s[e - 1] == '\'' && forall k | j < k < e - 1 :: s[k] != '\''
  {
    hide Keyword, Upper, SymbolAt, NumberAt;
  }

  // ---------------------------------------------------------------- token lists

  /** After the skipped text `s[i..j]` comes the token `t` with the text `s[j..e]`. */
  predicate NextToken(s: string, i: nat, j: nat, e: nat, t: Token) {
    && i <= j <= e <= |s| && Skippable(s, i, j)
    && (if t.kind == TEof then j == e == |s| else IsLexeme(s, j, e, t.kind))
    && t.lexeme == s[j..e] && t.line == LineAt(s, e) && t.column == ColumnAt(s, j)
  }

  /** The tokens of `s[i..]`. */
  ghost predicate Tokens(s: string, i: nat, ts: seq<Token>)
    decreases |ts|
  {
    ts != [] && exists j: nat, e: nat ::
      NextToken(s, i, j, e, ts[0]) && if ts[0].kind == TEof then |ts| == 1 else Tokens(s, e, ts[1..])
  }

  lemma NextTokenUnique(s: string, i: nat, j: nat, e: nat, t: Token, j': nat, e': nat, t': Token)
    requires NextToken(s, i, j, e, t) && NextToken(s, i, j', e', t')
    ensures j == j' && e == e' && t == t'
  {
    hide LineAt, ColumnAt, Skippable, LexemeAt;
    SkipUnique(s, i, j, j');
  }

  /** A source has at most one token list. */
  lemma {:induction false} TokensUnique(s: string, i: nat, ts: seq<Token>, us: seq<Token>)
    requires Tokens(s, i, ts) && Tokens(s, i, us)
    ensures ts == us
    decreases |ts|
  {
    hide NextToken;
    var j: nat, e: nat :| NextToken(s, i, j, e, ts[0]) && if ts[0].kind == TEof then |ts| == 1 else Tokens(s, e, ts[1..]);
    var j': nat, e': nat :| NextToken(s, i, j', e', us[0]) && if us[0].kind == TEof then |us| == 1 else Tokens(s, e', us[1..]);
    NextTokenUnique(s, i, j, e, ts[0], j', e', us[0]);
    if ts[0].kind != TEof {
      TokensUnique(s, e, ts[1..], us[1..]);
      assert ts == [ts[0]] + ts[1..] && us == [us[0]] + us[1..];
    }
  }

  /** The tokens `ts`, none of them the end token, take the source up to `i`. */
  ghost predicate TokensUpTo(s: string, ts: seq<Token>, i: nat)
    decreases |ts|
  {
    if ts == [] then i == 0
    else
      var n := |ts| - 1;
      ts[n].kind != TEof && exists h: nat, j: nat :: NextToken(s, h, j, i, ts[n]) && TokensUpTo(s, ts[..n], h)
  }

  lemma {:induction false} TokensJoin(s: string, ts: seq<Token>, i: nat, us: seq<Token>)
    requires TokensUpTo(s, ts, i) && Tokens(s, i, us)
    ensures Tokens(s, 0, ts + us)
    decreases |ts|
  {
    hide NextToken;
    if ts == [] {
      assert ts + us == us;
    } else {
      var n := |ts| - 1;
      var h: nat, j: nat :| NextToken(s, h, j, i, ts[n]) && TokensUpTo(s, ts[..n], h);
      var vs := [ts[n]] + us;
      assert vs[1..] == us;
      assert NextToken(s, h, j, i, vs[0]);
      TokensJoin(s, ts[..n], h, vs);
      assert ts[..n] + vs == ts + us;
    }
  }

  /** A token list of the source starts with whatever tokens take it up to some point. */
  lemma {:induction false} TokensSplit(s: string, ts: seq<Token>, i: nat, all: seq<Token>)
    requires TokensUpTo(s, ts, i) && Tokens(s, 0, all)
    ensures ts <= all && Tokens(s, i, all[|ts|..])
    decreases |ts|
  {
    hide NextToken;
    if ts != [] {
      var n := |ts| - 1;
      var h: nat, j: nat :| NextToken(s, h, j, i, ts[n]) && TokensUpTo(s, ts[..n], h);
      TokensSplit(s, ts[..n], h, all);
      var us := all[n..];
      var j': nat, e': nat :| NextToken(s, h, j', e', us[0]) && if us[0].kind == TEof then |us| == 1 else Tokens(s, e', us[1..]);
      NextTokenUnique(s, h, j, i, ts[n], j', e', us[0]);
      assert us[1..] == all[|ts|..];
      assert ts == ts[..n] + [ts[n]];
    }
  }

  /** Where no token starts the token list cannot go on. */
  lemma NoTokens(s: string, i: nat, j: nat, us: seq<Token>)
    requires i <= j < |s| && Skippable(s, i, j) && Stops(s, j) && LexemeAt(s, j) == None
    ensures !Tokens(s, i, us)
  {
    hide LineAt, ColumnAt, LexemeAt, Skippable;
    if Tokens(s, i, us) {
      var j': nat, e': nat :| NextToken(s, i, j', e', us[0]) && if us[0].kind == TEof then |us| == 1 else Tokens(s, e', us[1..]);
      SkipUnique(s, i, j, j');
    }
  }

  // ---------------------------------------------------------------- losslessness

  function Woven(gaps: seq<string>, ts: seq<Token>): string
    requires |gaps| == |ts|
  {
    if ts == [] then "" else gaps[0] + ts[0].lexeme + Woven(gaps[1..], ts[1..])
  }

  /** The text of the gap alone is white space and comments. */
  predicate OnlySkipped(gap: string) { Skippable(gap, 0, |gap|) }

  lemma {:induction false} LineEndInside(s: string, i: nat, j: nat, k: nat)
    requires i <= k <= j <= |s| && LineEnd(s, k) <= j
    ensures LineEnd(s[i..j], k - i) == LineEnd(s, k) - i
    decreases j - k
  {
    if k < j && s[k] != '\n' {
      LineEndInside(s, i, j, k + 1);
    }
  }

  lemma {:induction false} SkippedAlone(s: string, i: nat, j: nat, k: nat)
    requires i <= k <= j <= |s| && Skippable(s, k, j)
    ensures Skippable(s[i..j], k - i, j - i)
    decreases j - k
  {
    if k < j {
      if White(s[k]) && Skippable(s, k + 1, j) {
        SkippedAlone(s, i, j, k + 1);
      } else {
        LineEndInside(s, i, j, k);
        SkippedAlone(s, i, j, LineEnd(s, k));
        assert s[i..j][k - i] == s[k];
        LineEndPast(s, k);
      }
    }
  }

  lemma LineEndPast(s: string, k: nat)
    requires CommentAt(s, k)
    ensures LineEnd(s, k) >= k + 2
  {
  }

  /** The source is gaps of skipped text and token texts in turn; the last token and no other is
      the end token, and every other has at least one character. */
  lemma {:induction false} Lossless(s: string, i: nat, ts: seq<Token>) returns (gaps: seq<string>)
    requires Tokens(s, i, ts)
    ensures i <= |s| && |gaps| == |ts| && s[i..] == Woven(gaps, ts)
    ensures forall k | 0 <= k < |gaps| :: OnlySkipped(gaps[k])
    ensures forall k | 0 <= k < |ts| :: ts[k].kind == TEof <==> k == |ts| - 1
    ensures forall k | 0 <= k < |ts| :: ts[k].lexeme == "" <==> k == |ts| - 1
    decreases |ts|
  {
    hide NextToken, OnlySkipped;
    var j: nat, e: nat :| NextToken(s, i, j, e, ts[0]) && if ts[0].kind == TEof then |ts| == 1 else Tokens(s, e, ts[1..]);
    NextText(s, i, j, e, ts[0]);
    if ts[0].kind == TEof {
      gaps := [s[i..j]];
      assert Woven(gaps[1..], ts[1..]) == "";
    } else {
      var rest := Lossless(s, e, ts[1..]);
      gaps := [s[i..j]] + rest;
      assert gaps[1..] == rest;
      assert forall k | 1 <= k < |ts| :: ts[k] == ts[1..][k - 1];
    }
  }

  lemma NextText(s: string, i: nat, j: nat, e: nat, t: Token)
    requires NextToken(s, i, j, e, t)
    ensures i <= j <= e <= |s| && OnlySkipped(s[i..j]) && s[i..] == s[i..j] + t.lexeme + s[e..]
    ensures t.lexeme == "" <==> t.kind == TEof
    ensures t.kind == TEof ==> s[e..] == ""
  {
    hide LexemeAt, Stops, LineAt, ColumnAt;
    SkippedAlone(s, i, j, i);
    assert s[i..] == s[i..j] + s[j..e] + s[e..];
  }

  /** What a parser may rely on for one token. */
  predicate ProperToken(t: Token) {
    && (t.kind == LIdent ==> t.lexeme != "")
    && (t.kind == LString ==> |t.lexeme| >= 2 && t.lexeme[0] == '\'' && t.lexeme[|t.lexeme| - 1] == '\'')
  }

  predicate ProperTokens(ts: seq<Token>) {
    && ts != []
    && (forall k | 0 <= k < |ts| :: ts[k].kind == TEof <==> k == |ts| - 1)
    && forall k | 0 <= k < |ts| :: ProperToken(ts[k])
  }

  lemma {:induction false} TokensAreProper(s: string, i: nat, ts: seq<Token>)
    requires Tokens(s, i, ts)
    ensures ProperTokens(ts)
    decreases |ts|
  {
    hide NextToken, ProperToken;
    var j: nat, e: nat :| NextToken(s, i, j, e, ts[0]) && if ts[0].kind == TEof then |ts| == 1 else Tokens(s, e, ts[1..]);
    NextIsProper(s, i, j, e, ts[0]);
    if ts[0].kind != TEof {
      TokensAreProper(s, e, ts[1..]);
      assert forall k | 1 <= k < |ts| :: ts[k] == ts[1..][k - 1];
    }
  }

  lemma NextIsProper(s: string, i: nat, j: nat, e: nat, t: Token)
    requires NextToken(s, i, j, e, t)
    ensures ProperToken(t)
  {
    hide LexemeAt, Skippable, LineAt, ColumnAt, Keyword, Upper, Stops;
    if t.kind != TEof {
      LexemeShape(s, j, e, t.kind);
    }
  }
}
