/** The lexer: a cursor over the source that is moved on by every scan. It finds the token list of
    the source exactly when there is one. */
module Lexer {
  import opened Common
  import opened Lexing

  datatype LexError = UnterminatedString | UnexpectedCharacter(c: char)

  datatype Scanned = Scanned(token: Token) | Bad(error: LexError)

  datatype LexResult = Lexed(tokens: seq<Token>) | LexFailed(error: LexError)

  class Lexer {
    const source: string
    var start: nat
    var current: nat
    var line: nat
    var column: nat
    var tokenColumn: nat

    constructor (source: string)
      ensures Valid() && this.source == source && current == 0
    {
      this.source := source;
      start, current, line, column, tokenColumn := 0, 0, 1, 1, 1;
    }

    ghost predicate Valid() reads this {
      && start <= current <= |source|
      && line == LineAt(source, current) && column == ColumnAt(source, current)
      && tokenColumn == ColumnAt(source, start)
    }

    predicate IsAtEnd() reads this { current >= |source| }

    function Peek(): char reads this { if IsAtEnd() then '\0' else source[current] }

    function PeekNext(): char reads this { if current + 1 >= |source| then '\0' else source[current + 1] }

    method Advance() returns (c: char)
      requires Valid() && !IsAtEnd()
      modifies this`current, this`line, this`column
      ensures Valid() && current == old(current) + 1 && c == source[old(current)]
    {
      c := source[current];
      current := current + 1;
      if c == '\n' {
        line, column := line + 1, 1;
      } else {
        column := column + 1;
      }
    }

    method Match(expected: char) returns (b: bool)
      requires Valid()
      modifies this`current, this`line, this`column
      ensures Valid() && (b <==> old(current) < |source| && source[old(current)] == expected)
      ensures current == old(current) + if b then 1 else 0
    {
      if IsAtEnd() || source[current] != expected {
        return false;
      }
      var _ := Advance();
      return true;
    }

    method SkipWhitespaceAndComments()
      requires Valid()
      modifies this
      ensures Valid() && start == current && old(current) <= current
      ensures Skippable(source, old(current), current) && Stops(source, current)
    {
      hide LineAt, ColumnAt;
      while !IsAtEnd()
        invariant Valid() && old(current) <= current && Skippable(source, old(current), current)
        invariant start == old(start) && tokenColumn == old(tokenColumn)
        decreases |source| - current
      {
        ghost var from := current;
        if White(Peek()) {
          var _ := Advance();
        } else if Peek() == '-' && PeekNext() == '-' {
          SkipLine();
        } else {
          break;
        }
        SkipMore(source, old(current), from, current);
      }
      start := current;
      tokenColumn := column;
    }

    method SkipLine()
      requires Valid() && CommentAt(source, current)
      modifies this`current, this`line, this`column
      ensures Valid() && current == LineEnd(source, old(current)) > old(current)
      ensures Skippable(source, old(current), current)
    {
      while !IsAtEnd() && Peek() != '\n'
        invariant Valid() && LineEnd(source, current) == LineEnd(source, old(current)) && old(current) <= current
        decreases |source| - current
      {
        var _ := Advance();
      }
      LineEndPast(source, old(current));
    }

    function MakeToken(kind: TokenType): Token
      requires Valid()
      reads this
    {
      Token(kind, source[start..current], line, tokenColumn)
    }

    method ScanString() returns (r: Scanned)
      requires Valid() && start + 1 == current
      modifies this`current, this`line, this`column
      ensures Valid()
      ensures QuoteEnd(source, old(current)) == |source| ==> r == Bad(UnterminatedString)
      ensures QuoteEnd(source, old(current)) < |source| ==>
                current == QuoteEnd(source, old(current)) + 1 && r == Scanned(MakeToken(LString))
    {
      hide LineAt, ColumnAt;
      while !IsAtEnd() && Peek() != '\''
        invariant Valid() && QuoteEnd(source, current) == QuoteEnd(source, old(current)) && start < current
        decreases |source| - current
      {
        var _ := Advance();
      }
      if IsAtEnd() {
        return Bad(UnterminatedString);
      }
      var _ := Advance();
      r := Scanned(MakeToken(LString));
    }

    method SkipDigits()
      requires Valid()
      modifies this`current, this`line, this`column
      ensures Valid() && current == DigitsEnd(source, old(current))
    {
      hide LineAt, ColumnAt;
      while !IsAtEnd() && Digit(Peek())
        invariant Valid() && DigitsEnd(source, current) == DigitsEnd(source, old(current))
        decreases |source| - current
      {
        var _ := Advance();
      }
    }

    method SkipFraction() returns (found: bool)
      requires Valid()
      modifies this`current, this`line, this`column
      ensures Valid() && current == FractionEnd(source, old(current)) && (found <==> current != old(current))
    {
      hide LineAt, ColumnAt, DigitsEnd;
      found := !IsAtEnd() && Peek() == '.' && PeekNext() != '.';
      if found {
        var _ := Advance();
        SkipDigits();
      }
    }

    method SkipExponent() returns (found: bool)
      requires Valid()
      modifies this`current, this`line, this`column
      ensures Valid() && current == ExponentEnd(source, old(current)) && (found <==> current != old(current))
    {
      hide LineAt, ColumnAt, DigitsEnd;
      found := !IsAtEnd() && (Peek() == 'e' || Peek() == 'E');
      if found {
        var _ := Advance();
        if !IsAtEnd() && (Peek() == '+' || Peek() == '-') {
          var _ := Advance();
        }
        SkipDigits();
      }
    }

    method ScanNumber() returns (r: Scanned)
      requires Valid() && start + 1 == current
      modifies this`current, this`line, this`column
      ensures Valid() && current == NumberAt(source, start).end
      ensures r == Scanned(MakeToken(NumberAt(source, start).kind))
    {
      hide LineAt, ColumnAt, DigitsEnd, NumberAt, FractionEnd, ExponentEnd;
      SkipDigits();
      ghost var whole := current;
      var fraction := SkipFraction();
      ghost var mantissa := current;
      var exponent := SkipExponent();
      NumberParts(whole, mantissa);
      r := Scanned(MakeToken(if fraction || exponent then LFloat else LInt));
    }

    lemma NumberParts(whole: nat, mantissa: nat)
      requires start < |source| && whole == DigitsEnd(source, start + 1) && mantissa == FractionEnd(source, whole)
      ensures var l := NumberAt(source, start);
              l.end == ExponentEnd(source, mantissa) && l.kind == if l.end == whole then LInt else LFloat
    {
    }

    method ScanIdentifierOrKeyword() returns (r: Scanned)
      requires Valid() && start + 1 == current
      modifies this`current, this`line, this`column
      ensures Valid() && current == WordAt(source, start).end
      ensures r == Scanned(MakeToken(WordAt(source, start).kind))
    {
      hide LineAt, ColumnAt, Keyword, Upper;
      while !IsAtEnd() && WordChar(Peek())
        invariant Valid() && start < current && WordEnd(source, current) == WordEnd(source, old(current))
        decreases |source| - current
      {
        var _ := Advance();
      }
      assert current == WordAt(source, start).end;
      assert WordAt(source, start).kind == KindOfWord(source[start..current]);
      var word := source[start..current];
      var keyword := Keyword(Upper(word));
      r := Scanned(MakeToken(if keyword.Some? then keyword.value else LIdent));
      assert KindOfWord(word) == r.token.kind;
    }

    method ScanSymbol(c: char) returns (r: Scanned)
      requires Valid() && start + 1 == current && c == source[start]
      modifies this`current, this`line, this`column
      ensures Valid()
      ensures SymbolAt(source, start) == None ==> r == Bad(UnexpectedCharacter(c))
      ensures SymbolAt(source, start).Some? ==>
                current == SymbolAt(source, start).value.end && r == Scanned(MakeToken(SymbolAt(source, start).value.kind))
    {
      hide LineAt, ColumnAt;
      var kind: TokenType;
      match c {
        case '{' => kind := SLbrace;
        case '}' => kind := SRbrace;
        case '(' => kind := SLparen;
        case ')' => kind := SRparen;
        case '[' => kind := SLbracket;
        case ']' => kind := SRbracket;
        case ',' => kind := SComma;
        case ':' => kind := SColon;
        case ';' => kind := SSemicolon;
        case '.' => kind := SDot;
        case '=' => kind := SEq;
        case '>' =>
          var orEqual := Match('=');
          kind := if orEqual then SGe else SGt;
        case '<' =>
          var orEqual := Match('=');
          kind := if orEqual then SLe else SLt;
        case '-' => kind := SMinus;
        case _ => return Bad(UnexpectedCharacter(c));
      }
      r := Scanned(MakeToken(kind));
    }

    /** Scans the token that starts at the cursor, by its first character. */
    method ScanLexeme() returns (r: Scanned)
      requires Valid() && start == current < |source|
      modifies this`current, this`line, this`column
      ensures Valid() && start <= current
      ensures LexemeAt(source, start) == None ==> r.Bad?
      ensures LexemeAt(source, start).Some? ==>
                current == LexemeAt(source, start).value.end && r == Scanned(MakeToken(LexemeAt(source, start).value.kind))
    {
      hide LineAt, ColumnAt, WordAt, NumberAt, SymbolAt;
      var c := Advance();
      if WordStart(c) {
        r := ScanIdentifierOrKeyword();
      } else if Digit(c) {
        r := ScanNumber();
      } else if c == '\'' {
        r := ScanString();
      } else if c == '-' && !IsAtEnd() && Digit(Peek()) {
        r := ScanNumber();
      } else {
        r := ScanSymbol(c);
      }
    }

    /** Scans one token; it fails where no token starts. */
    method ScanToken() returns (r: Scanned, ghost at: nat)
      requires Valid()
      modifies this
      ensures Valid() && old(current) <= at <= |source|
      ensures r.Scanned? ==> NextToken(source, old(current), at, current, r.token) && (r.token.kind != TEof ==> old(current) < current)
      ensures r.Bad? ==> Skippable(source, old(current), at) && Stops(source, at) && at < |source| && LexemeAt(source, at) == None
    {
      hide LineAt, ColumnAt, LexemeAt, Skippable;
      SkipWhitespaceAndComments();
      at := current;
      if IsAtEnd() {
        return Scanned(MakeToken(TEof)), at;
      }
      start := current;
      tokenColumn := column;
      r := ScanLexeme();
    }

    /** Collects the tokens of the whole source, or stops at the first place where none starts. */
    method Tokenize() returns (r: LexResult)
      requires Valid() && current == 0
      modifies this
      ensures r.Lexed? ==> Tokens(source, 0, r.tokens) && ProperTokens(r.tokens)
      ensures r.LexFailed? ==> forall ts :: !Tokens(source, 0, ts)
    {
      hide NextToken, LexemeAt, Stops, LineAt, ColumnAt;
      var tokens: seq<Token> := [];
      while true
        invariant Valid() && TokensUpTo(source, tokens, current)
        decreases |source| - current
      {
        ghost var i := current;
        var scanned, at := ScanToken();
        if scanned.Bad? {
          forall ts ensures !Tokens(source, 0, ts) {
            if Tokens(source, 0, ts) {
              TokensSplit(source, tokens, i, ts);
              NoTokens(source, i, at, ts[|tokens|..]);
            }
          }
          return LexFailed(scanned.error);
        }
        var t := scanned.token;
        if t.kind == TEof {
          assert NextToken(source, i, at, current, [t][0]);
          TokensJoin(source, tokens, i, [t]);
          tokens := tokens + [t];
          break;
        }
        ghost var before := tokens;
        tokens := tokens + [t];
        assert tokens[..|before|] == before;
      }
      r := Lexed(tokens);
      TokensAreProper(source, 0, tokens);
    }
  }
}
