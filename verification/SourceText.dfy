/** Program texts: words that are tokens each on its own, with a space after each, have exactly
    those tokens, so that a program written out as text is read back by lexer and parser. */
module SourceText {
  import opened Common
  import opened Lexing
  import opened SynthLang
  import opened SynthLangPrinting

  /** `word` alone, with a space after it, is one token of this kind. */
  predicate StandsAlone(word: string, kind: TokenType) {
    IsLexeme(word + " ", 0, |word|, kind)
  }

  /** The text `t` stands in `s` at `j`. */
  predicate Within(s: string, j: nat, t: string) {
    j + |t| <= |s| && forall k | 0 <= k < |t| :: s[j + k] == t[k]
  }

  // ---------------------------------------------------------------- lexemes are local

  lemma {:induction false} WordEndLocal(s: string, j: nat, t: string, i: nat)
    requires Within(s, j, t) && i <= |t| && WordEnd(t, i) < |t|
    ensures WordEnd(s, j + i) == j + WordEnd(t, i)
    decreases |t| - i
  {
    assert s[j + i] == t[i];
    if WordChar(t[i]) {
      WordEndLocal(s, j, t, i + 1);
    }
  }

  lemma {:induction false} DigitsEndLocal(s: string, j: nat, t: string, i: nat)
    requires Within(s, j, t) && i <= |t| && DigitsEnd(t, i) < |t|
    ensures DigitsEnd(s, j + i) == j + DigitsEnd(t, i)
    decreases |t| - i
  {
    assert s[j + i] == t[i];
    if Digit(t[i]) {
      DigitsEndLocal(s, j, t, i + 1);
    }
  }

  lemma {:induction false} QuoteEndLocal(s: string, j: nat, t: string, i: nat)
    requires Within(s, j, t) && i <= |t| && QuoteEnd(t, i) < |t|
    ensures QuoteEnd(s, j + i) == j + QuoteEnd(t, i)
    decreases |t| - i
  {
    assert s[j + i] == t[i];
    if t[i] != '\'' {
      QuoteEndLocal(s, j, t, i + 1);
    }
  }

  lemma FractionEndLocal(s: string, j: nat, t: string, i: nat)
    requires Within(s, j, t) && i < |t| && t[|t| - 1] == ' ' && FractionEnd(t, i) < |t|
    ensures FractionEnd(s, j + i) == j + FractionEnd(t, i)
  {
    hide DigitsEnd;
    assert s[j + i] == t[i];
    if t[i] == '.' {
      assert s[j + (i + 1)] == t[i + 1];
      if t[i + 1] != '.' {
        DigitsEndLocal(s, j, t, i + 1);
      }
    }
  }

  lemma ExponentEndLocal(s: string, j: nat, t: string, i: nat)
    requires Within(s, j, t) && i < |t| && t[|t| - 1] == ' ' && ExponentEnd(t, i) < |t|
    ensures ExponentEnd(s, j + i) == j + ExponentEnd(t, i)
  {
    hide DigitsEnd;
    assert s[j + i] == t[i];
    if ExponentAt(t, i) {
      assert s[j + (i + 1)] == t[i + 1];
      if t[i + 1] == '+' || t[i + 1] == '-' {
        DigitsEndLocal(s, j, t, i + 2);
      } else {
        DigitsEndLocal(s, j, t, i + 1);
      }
    }
  }

  lemma NumberLocal(s: string, j: nat, t: string)
    requires Within(s, j, t) && t != "" && t[|t| - 1] == ' ' && NumberAt(t, 0).end == |t| - 1
    ensures j < |s| && NumberAt(s, j) == Lexeme(j + |t| - 1, NumberAt(t, 0).kind)
  {
    hide DigitsEnd, FractionEnd, ExponentEnd, Within;
    assert j < |s| by { WithinBounds(s, j, t); }
    var whole := DigitsEnd(t, 1);
    DigitsEndLocal(s, j, t, 1);
    var mantissa := FractionEnd(t, whole);
    FractionEndLocal(s, j, t, whole);
    ExponentEndLocal(s, j, t, mantissa);
  }

  lemma WithinBounds(s: string, j: nat, t: string)
    requires Within(s, j, t)
    ensures j + |t| <= |s|
    ensures t != "" ==> s[j] == t[0]
    ensures |t| > 1 ==> s[j + 1] == t[1]
  {
    assert t != "" ==> s[j + 0] == t[0];
  }

  /** A token and the space after it are the same token wherever they stand. */
  lemma LexemeLocal(s: string, j: nat, word: string, kind: TokenType)
    requires StandsAlone(word, kind) && Within(s, j, word + " ")
    ensures word != "" && IsLexeme(s, j, j + |word|, kind)
  {
    hide Within, WordAt, NumberAt, SymbolAt, QuoteEnd;
    var t := word + " ";
    WithinBounds(s, j, t);
    if WordStart(t[0]) {
      WordLocal(s, j, word);
    } else if Digit(t[0]) || (t[0] == '-' && |t| > 1 && Digit(t[1])) {
      NumberLocal(s, j, t);
    } else if t[0] == '\'' {
      QuoteEndLocal(s, j, t, 1);
    } else {
      SymbolLocal(s, j, t);
    }
  }

  lemma WordLocal(s: string, j: nat, word: string)
    requires word != "" && Within(s, j, word + " ") && WordAt(word + " ", 0).end == |word|
    ensures j < |s| && WordAt(s, j) == Lexeme(j + |word|, WordAt(word + " ", 0).kind)
  {
    hide WordEnd, KindOfWord;
    var t := word + " ";
    WordEndLocal(s, j, t, 1);
    assert s[j..j + |word|] == word && t[0..|word|] == word by {
      assert forall k | 0 <= k < |word| :: s[j + k] == t[k];
    }
  }

  lemma SymbolLocal(s: string, j: nat, t: string)
    requires |t| > 1 && j + |t| <= |s| && s[j] == t[0] && s[j + 1] == t[1] && SymbolAt(t, 0).Some?
    ensures SymbolAt(s, j) == Some(Lexeme(j + SymbolAt(t, 0).value.end, SymbolAt(t, 0).value.kind))
  {
    hide SymbolOf;
  }

  // ---------------------------------------------------------------- texts

  function Rendered(words: seq<string>): string {
    if words == [] then "" else words[0] + " " + Rendered(words[1..])
  }

  /** The token list that consists of these words. */
  predicate AreTokens(ts: seq<Token>, words: seq<string>, kinds: seq<TokenType>) {
    && |words| == |kinds| && |ts| == |words| + 1
    && forall k | 0 <= k < |words| :: ts[k].kind == kinds[k] && ts[k].lexeme == words[k]
  }

  lemma RenderedHead(s: string, i: nat, words: seq<string>)
    requires i <= |s| && words != [] && s[i..] == Rendered(words)
    ensures Within(s, i, words[0] + " ") && s[i + |words[0]|] == ' '
    ensures s[i + |words[0]| + 1..] == Rendered(words[1..]) && s[i..i + |words[0]|] == words[0]
  {
    var t := words[0] + " ";
    assert s[i..] == t + Rendered(words[1..]);
    assert forall k | 0 <= k < |t| :: s[i + k] == s[i..][k];
    assert s[i + |t|..] == s[i..][|t|..];
    assert s[i..i + |words[0]|] == s[i..][..|words[0]|];
  }

  /** From `h` on, with nothing but skipped text up to `i`, the words are the tokens. */
  lemma {:induction false} WordsAreTokens(s: string, h: nat, i: nat, words: seq<string>, kinds: seq<TokenType>) returns (ts: seq<Token>)
    requires h <= i <= |s| && Skippable(s, h, i) && s[i..] == Rendered(words) && |words| == |kinds|
    requires forall k | 0 <= k < |words| :: StandsAlone(words[k], kinds[k])
    ensures Tokens(s, h, ts) && AreTokens(ts, words, kinds)
    decreases |words|
  {
    hide Skippable, StandsAlone, LineAt, ColumnAt, IsLexeme, Within, Rendered;
    if words == [] {
      EmptyText(s, i);
      ts := [Token(TEof, "", LineAt(s, i), ColumnAt(s, i))];
      assert s[i..i] == "";
      assert NextToken(s, h, i, i, ts[0]);
    } else {
      RenderedHead(s, i, words);
      LexemeLocal(s, i, words[0], kinds[0]);
      NotTheEnd(s, i, i + |words[0]|, kinds[0]);
      var e := i + |words[0]|;
      OneSpace(s, e);
      var rest := WordsAreTokens(s, e, e + 1, words[1..], kinds[1..]);
      var t := Token(kinds[0], words[0], LineAt(s, e), ColumnAt(s, i));
      ts := [t] + rest;
      assert NextToken(s, h, i, e, ts[0]);
      assert ts[1..] == rest;
      assert forall k | 1 <= k < |words| :: words[k] == words[1..][k - 1] && kinds[k] == kinds[1..][k - 1] && ts[k] == rest[k - 1];
    }
  }

  lemma EmptyText(s: string, i: nat)
    requires i <= |s| && s[i..] == Rendered([])
    ensures i == |s|
  {
  }

  lemma OneSpace(s: string, e: nat)
    requires e < |s| && s[e] == ' '
    ensures Skippable(s, e, e + 1)
  {
    assert Skippable(s, e + 1, e + 1);
  }

  lemma NotTheEnd(s: string, j: nat, e: nat, kind: TokenType)
    requires IsLexeme(s, j, e, kind)
    ensures kind != TEof && j < e <= |s|
  {
  }

  // ---------------------------------------------------------------- programs

  /** These words write these cells: keywords and symbols in any spelling that the lexer knows. */
  predicate Writes(words: seq<string>, cells: seq<Cell>) {
    |words| == |cells| &&
    forall k | 0 <= k < |words| :: StandsAlone(words[k], cells[k].kind) && (IsFixed(cells[k].kind) || words[k] == cells[k].text)
  }

  function Kinds(cells: seq<Cell>): (kinds: seq<TokenType>)
    ensures |kinds| == |cells|
  {
    seq(|cells|, k requires 0 <= k < |cells| => cells[k].kind)
  }

  /** The text of a program has a token list, and any that it has parses to the program. */
  lemma ProgramTextsParse(n: Numerals, w: Writing, ss: seq<Statement>, words: seq<string>)
    requires WritableProgram(n, w, ss, []) && Writes(words, SpellProgram(w, ss))
    ensures exists ts :: Tokens(Rendered(words), 0, ts)
    ensures forall ts | Tokens(Rendered(words), 0, ts) :: ProperTokens(ts) && ParseTokens(n, ts) == Program(ss, [])
  {
    hide StandsAlone, SpellProgram, WritableProgram, ProperTokens, ParseTokens, Tokens, Rendered;
    var s, cells := Rendered(words), SpellProgram(w, ss);
    assert s[0..] == s;
    assert Skippable(s, 0, 0);
    var us := WordsAreTokens(s, 0, 0, words, Kinds(cells));
    forall ts | Tokens(s, 0, ts) ensures ProperTokens(ts) && ParseTokens(n, ts) == Program(ss, []) {
      TokensUnique(s, 0, ts, us);
      TokensAreProper(s, 0, ts);
      SpelledByWords(ts, words, cells);
      WrittenProgramsParse(n, w, ts, ss);
    }
  }

  lemma SpelledByWords(ts: seq<Token>, words: seq<string>, cells: seq<Cell>)
    requires ProperTokens(ts) && Writes(words, cells) && AreTokens(ts, words, Kinds(cells))
    ensures Spelled(ts, 0, cells) && |cells| == |ts| - 1
  {
    forall k | 0 <= k < |cells| ensures Matches(ts[0 + k], cells[k]) {
      assert ts[k].kind == Kinds(cells)[k];
    }
  }
}
