/** File names as the program builds them: a text appended to a directory, and where that leads.
    Dot segments and repeated slashes are resolved in the text, without looking at links. */
module Paths {
  /** The names from the root directory down. */
  type Location = seq<string>

  function FirstSlash(p: string): (i: nat)
    ensures i <= |p|
    ensures i < |p| ==> p[i] == '/'
    ensures forall j | 0 <= j < i :: p[j] != '/'
  {
    if p == "" || p[0] == '/' then 0 else 1 + FirstSlash(p[1..])
  }

  predicate NoSlash(s: string) { forall i | 0 <= i < |s| :: s[i] != '/' }

  /** The texts between slashes. */
  function Pieces(p: string): (ps: seq<string>)
    ensures ps != []
    decreases |p|
  {
    var i := FirstSlash(p);
    if i == |p| then [p] else [p[..i]] + Pieces(p[i + 1..])
  }

  function Enter(dir: Location, piece: string): Location {
    if piece == "" || piece == "." then dir
    else if piece == ".." then (if dir == [] then [] else dir[..|dir| - 1])
    else dir + [piece]
  }

  function Walk(dir: Location, ps: seq<string>): Location
    decreases |ps|
  {
    if ps == [] then dir else Walk(Enter(dir, ps[0]), ps[1..])
  }

  predicate Absolute(text: string) { text != "" && text[0] == '/' }

  /** A text that starts with a slash starts from the root. */
  function From(dir: Location, text: string): Location {
    if Absolute(text) then [] else dir
  }

  /** Where `text`, appended to `dir`, leads; a leading slash drops `dir`. */
  function Resolve(dir: Location, text: string): Location {
    Walk(From(dir, text), Pieces(text))
  }

  /** One name below `dir`, as a listing of `dir` shows it. */
  predicate OneBelow(dir: Location, at: Location) {
    |at| == |dir| + 1 && at[..|dir|] == dir
  }

  // ---------------------------------------------------------------- names with a suffix

  function LastPiece(text: string): string { Pieces(text)[|Pieces(text)| - 1] }

  /** The directory that the slashes in `text` lead to. */
  function Directory(dir: Location, text: string): Location {
    Walk(From(dir, text), Pieces(text)[..|Pieces(text)| - 1])
  }

  lemma FirstSlashIs(p: string, i: nat)
    requires i <= |p| && (i < |p| ==> p[i] == '/') && forall j | 0 <= j < i :: p[j] != '/'
    ensures FirstSlash(p) == i
  {
  }

  lemma {:induction false} PiecesAppend(text: string, suffix: string)
    requires NoSlash(suffix)
    ensures Pieces(text + suffix) == Pieces(text)[..|Pieces(text)| - 1] + [LastPiece(text) + suffix]
    decreases |text|
  {
    hide FirstSlash, Pieces;
    var i, whole := FirstSlash(text), text + suffix;
    if i == |text| {
      NoSlashPieces(text);
      NoSlashPieces(whole);
    } else {
      var rest := text[i + 1..];
      PiecesAfterSlash(text, i);
      PiecesAfterSlash(whole, i);
      assert whole[..i] == text[..i] && whole[i + 1..] == rest + suffix;
      PiecesAppend(rest, suffix);
      var ps, qs := Pieces(rest), Pieces(rest)[..|Pieces(rest)| - 1];
      assert ([text[..i]] + ps)[..|ps|] == [text[..i]] + qs;
      assert Pieces(whole) == [text[..i]] + (qs + [LastPiece(rest) + suffix]);
    }
  }

  lemma PiecesAfterSlash(p: string, i: nat)
    requires i < |p| && p[i] == '/' && forall j | 0 <= j < i :: p[j] != '/'
    ensures Pieces(p) == [p[..i]] + Pieces(p[i + 1..])
  {
    FirstSlashIs(p, i);
  }

  lemma {:induction false} WalkConcat(dir: Location, a: seq<string>, b: seq<string>)
    ensures Walk(dir, a + b) == Walk(Walk(dir, a), b)
    decreases |a|
  {
    if a == [] {
      assert a + b == b;
    } else {
      assert (a + b)[1..] == a[1..] + b;
      WalkConcat(Enter(dir, a[0]), a[1..], b);
    }
  }

  /** A name with a suffix like `.parquet` is a file in the directory that its slashes lead to. */
  lemma ResolveFile(dir: Location, text: string, suffix: string)
    requires NoSlash(suffix) && |suffix| > 2
    ensures Resolve(dir, text + suffix) == Directory(dir, text) + [LastPiece(text) + suffix]
  {
    hide Walk, Pieces;
    PiecesAppend(text, suffix);
    var ps, last := Pieces(text), LastPiece(text) + suffix;
    assert From(dir, text + suffix) == From(dir, text) by {
      assert text == "" ==> (text + suffix)[0] == suffix[0];
    }
    WalkConcat(From(dir, text), ps[..|ps| - 1], [last]);
    OneStep(Directory(dir, text), last);
  }

  lemma OneStep(dir: Location, piece: string)
    ensures Walk(dir, [piece]) == Enter(dir, piece)
  {
    assert Walk(Enter(dir, piece), []) == Enter(dir, piece);
  }

  /** A single name that is neither empty nor a dot segment. */
  predicate Plain(text: string) { text !in {"", ".", ".."} && NoSlash(text) }

  lemma NoSlashPieces(text: string)
    requires NoSlash(text)
    ensures Pieces(text) == [text] && (text != "" ==> text[0] != '/')
  {
    FirstSlashIs(text, |text|);
  }

  /** Without a slash a text leads one name down, except that the empty text and the dot segments do not. */
  lemma ResolveNoSlash(dir: Location, text: string)
    requires NoSlash(text)
    ensures Resolve(dir, text) == Enter(dir, text)
    ensures OneBelow(dir, Resolve(dir, text)) <==> Plain(text)
  {
    NoSlashPieces(text);
    OneStep(dir, text);
  }

  lemma DirectoryNoSlash(dir: Location, text: string)
    requires NoSlash(text)
    ensures Directory(dir, text) == dir && LastPiece(text) == text
  {
    NoSlashPieces(text);
  }

  /** A slash at the end of a plain name makes no difference to where it leads. */
  lemma TrailingSlash(dir: Location, text: string)
    requires Plain(text)
    ensures Resolve(dir, text + "/") == Resolve(dir, text) == dir + [text]
  {
    var whole := text + "/";
    FirstSlashIs(whole, |text|);
    assert whole[..|text|] == text && whole[|text| + 1..] == "";
    assert Pieces("") == [""];
    NoSlashPieces(text);
    OneStep(dir, text);
    assert Pieces(whole) == [text, ""];
    assert Walk(dir + [text], [""]) == dir + [text] by { OneStep(dir + [text], ""); }
    assert [text, ""][1..] == [""];
  }
}
