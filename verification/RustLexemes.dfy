/** A reference lexer that reads one whole comment, string or literal at a time, and the proof that
    the character-level scanner blanks exactly its non-code lexemes. */
module RustLexemes {
  import opened Escapes
  import opened Lists
  import opened PythonText
  import opened RustBlanker
  import opened RustBlankerTheorems

  // ---------- Where each kind of lexeme ends ----------

  /** What is left of a block comment when `depth` comments are open. */
  function BlockEnd(s: string, depth: nat): (n: nat)
    ensures n <= |s|
  {
    if s == [] || depth == 0 then 0
    else
      var (skip, change) := BlockTurn(s);
      skip + BlockEnd(s[skip..], depth + change)
  }

  function BlockTurn(s: string): (r: (nat, int))
    requires s != []
    ensures 1 <= r.0 <= |s| && -1 <= r.1
  {
    if Pair(s, '/', '*') then (2, 1)
    else if Pair(s, '*', '/') then (2, -1)
    else (1, 0)
  }

  /** Block comments nest: the inner comments close first, then the outer ones. */
  lemma {:induction false} BlockCommentsNest(s: string, inner: nat, outer: nat, rest: string)
    requires rest == s[BlockEnd(s, inner)..]
    ensures BlockEnd(s, inner + outer) == BlockEnd(s, inner) + BlockEnd(rest, outer)
    decreases |s|
  {
    if inner == 0 {
      assert rest == s;
    } else if s != [] {
      var (skip, change) := BlockTurn(s);
      var tail := s[skip..];
      var inner' := inner + change;
      BlockEndUnfolds(s, inner, skip, inner', tail);
      BlockEndUnfolds(s, inner + outer, skip, inner' + outer, tail);
      assert rest == tail[BlockEnd(tail, inner')..];
      BlockCommentsNest(tail, inner', outer, rest);
    }
  }

  lemma BlockEndUnfolds(s: string, depth: nat, skip: nat, depth': nat, tail: string)
    requires s != [] && depth > 0 && BlockTurn(s) == (skip, depth' - depth) && tail == s[skip..]
    ensures BlockEnd(s, depth) == skip + BlockEnd(tail, depth')
  {
  }

  function StringEnd(s: string): (n: nat)
    ensures n <= |s|
  {
    if s == [] then 0
    else if s[0] == '\\' && |s| > 1 then 2 + StringEnd(s[2..])
    else if s[0] == '"' then 1
    else 1 + StringEnd(s[1..])
  }

  ghost predicate ClosesString(s: string, j: nat)
    requires j < |s|
  {
    s[j] == '"' && !Escaped(s, j)
  }

  /** A string ends with its first unescaped quote, or runs to the end of the source. */
  lemma {:induction false} StringEndsAtFirstQuote(s: string)
    ensures forall j :: 0 <= j < StringEnd(s) - 1 ==> !ClosesString(s, j)
    ensures StringEnd(s) < |s| ==> StringEnd(s) > 0 && ClosesString(s, StringEnd(s) - 1)
  {
    if s == [] || s[0] == '"' {
    } else {
      var d := if s[0] == '\\' && |s| > 1 then 2 else 1;
      StringEndsAtFirstQuote(s[d..]);
      FirstStep(s, d);
      forall j: nat | d <= j < |s|
        ensures ClosesString(s, j) == ClosesString(s[d..], j - d)
      {
        EscapedShifts(s, d, j - d);
      }
    }
  }

  /** The first step of a string ends at an unescaped position and does not close it. */
  lemma FirstStep(s: string, d: nat)
    requires s != [] && s[0] != '"' && d == if s[0] == '\\' && |s| > 1 then 2 else 1
    ensures d < |s| ==> !Escaped(s, d)
    ensures forall j: nat :: j < d ==> !ClosesString(s, j)
  {
    assert Escaped(s, 1) <==> s[0] == '\\';
  }

  ghost predicate Occurs(mark: string, s: string, j: nat)
    requires j < |s|
  {
    mark <= s[j..]
  }

  /** The end of the first occurrence of a mark, or the end of the text when there is none. */
  function EndOfFirst(mark: string, s: string): (n: nat)
    requires mark != ""
    ensures n <= |s|
  {
    if s == [] then 0
    else if mark <= s then |mark|
    else 1 + EndOfFirst(mark, s[1..])
  }

  lemma OccursShifts(mark: string, s: string, j: nat)
    requires 0 < j < |s|
    ensures Occurs(mark, s, j) <==> Occurs(mark, s[1..], j - 1)
  {
    assert s[j..] == s[1..][j - 1..];
  }

  lemma {:induction false} EndsAtFirst(mark: string, s: string)
    requires mark != ""
    ensures var n := EndOfFirst(mark, s);
      || (n == |s| && forall j :: 0 <= j < n ==> !Occurs(mark, s, j))
      || (n >= |mark| && Occurs(mark, s, n - |mark|) && forall j :: 0 <= j < n - |mark| ==> !Occurs(mark, s, j))
  {
    if s == [] {
    } else {
      assert s[0..] == s;
      if !Occurs(mark, s, 0) {
        EndsAtFirst(mark, s[1..]);
        forall j | 0 < j < |s|
          ensures Occurs(mark, s, j) <==> Occurs(mark, s[1..], j - 1)
        {
          OccursShifts(mark, s, j);
        }
      }
    }
  }

  function Terminator(hashes: nat): (mark: string)
    ensures |mark| == hashes + 1
  {
    "\"" + Hashes(hashes)
  }

  function RawEnd(s: string, hashes: nat): (n: nat)
    ensures n <= |s|
  {
    EndOfFirst(Terminator(hashes), s)
  }

  /** A raw string ends with the first quote followed by as many hashes as it opened with, or runs to
      the end of the source. */
  lemma RawEndsAtFirstTerminator(s: string, hashes: nat)
    ensures var n := RawEnd(s, hashes);
      || (n == |s| && forall j :: 0 <= j < n ==> !Occurs("\"" + Hashes(hashes), s, j))
      || (n > hashes && Occurs("\"" + Hashes(hashes), s, n - hashes - 1)
          && forall j :: 0 <= j < n - hashes - 1 ==> !Occurs("\"" + Hashes(hashes), s, j))
  {
    EndsAtFirst(Terminator(hashes), s);
  }

  // ---------- The lexer ----------

  datatype Lexeme = Plain(c: char) | NonCode(text: string)

  /** Length of the comment, string or literal at the head of `s`, 0 for a character of code. */
  function NonCodeLen(s: string): (n: nat)
    requires s != []
    ensures n <= |s|
  {
    TokensHaveNoNewline(s);
    if Pair(s, '/', '/') then 2 + FirstIndex(s[2..], '\n')
    else if Pair(s, '/', '*') then 2 + BlockEnd(s[2..], 1)
    else if CharLiteralLen(s) > 0 then CharLiteralLen(s)
    else if s[0] == '"' then 1 + StringEnd(s[1..])
    else if RawOpenLen(s) > 0 then RawOpenLen(s) + RawEnd(s[RawOpenLen(s)..], RawHashes(s))
    else 0
  }

  function Lex(s: string): seq<Lexeme> {
    if s == [] then []
    else
      var (lexeme, tail) := Head(s);
      [lexeme] + Lex(tail)
  }

  function TextOf(lexeme: Lexeme): string {
    match lexeme
    case Plain(c) => [c]
    case NonCode(t) => t
  }

  function RenderOne(lexeme: Lexeme): string {
    match lexeme
    case Plain(c) => [c]
    case NonCode(t) => Blank(t)
  }

  function Source(ls: seq<Lexeme>): string {
    if ls == [] then ""
    else TextOf(ls[0]) + Source(ls[1..])
  }

  function Render(ls: seq<Lexeme>): string {
    if ls == [] then ""
    else RenderOne(ls[0]) + Render(ls[1..])
  }

  /** The first lexeme and the text after it. */
  function Head(s: string): (r: (Lexeme, string))
    requires s != []
    ensures |r.1| < |s|
  {
    var n := NonCodeLen(s);
    if n == 0 then (Plain(s[0]), s[1..]) else (NonCode(s[..n]), s[n..])
  }

  lemma LexUnfolds(s: string, lexeme: Lexeme, tail: string)
    requires s != [] && Head(s) == (lexeme, tail)
    ensures Lex(s)[0] == lexeme && Lex(s)[1..] == Lex(tail)
  {
  }

  lemma HeadCovers(s: string, lexeme: Lexeme, tail: string)
    requires s != [] && Head(s) == (lexeme, tail)
    ensures s == TextOf(lexeme) + tail
  {
  }

  lemma SourceUnfolds(s: string, lexeme: Lexeme, tail: string)
    requires s != [] && Head(s) == (lexeme, tail)
    ensures Source(Lex(s)) == TextOf(lexeme) + Source(Lex(tail))
    ensures Render(Lex(s)) == RenderOne(lexeme) + Render(Lex(tail))
  {
    LexUnfolds(s, lexeme, tail);
  }

  lemma {:induction false} LexemesCoverTheSource(s: string)
    ensures Source(Lex(s)) == s
  {
    if s == [] {
    } else {
      var (lexeme, tail) := Head(s);
      LexemesCoverTheSource(tail);
      SourceUnfolds(s, lexeme, tail);
      HeadCovers(s, lexeme, tail);
    }
  }

  // ---------- The scanner agrees with the lexer ----------

  lemma BlankSplits(s: string, d: nat, n: nat)
    requires d <= n <= |s|
    ensures Blank(s[..n]) == Blank(s[..d]) + Blank(s[d..][..n - d])
  {
  }

  /** A scan that blanks its first `d` characters and then blanks `n` more blanks `d + n`. */
  lemma BlankMore(s: string, mode: Mode, t: Turn, tail: string, n: nat, rest: string)
    requires s != [] && t == Step(s, mode) && !t.kept && tail == s[t.len..] && n <= |tail|
    requires Scan(tail, t.next).0 == Blank(tail[..n]) + rest
    ensures Scan(s, mode).0 == Blank(s[..t.len + n]) + rest
  {
    ScanUnfolds(s, mode, t, tail);
    BlankSplits(s, t.len, t.len + n);
    Associate(Blank(s[..t.len]), Blank(tail[..n]), rest);
  }

  lemma NothingBlanked(s: string, rest: string)
    requires rest == Strip(s)
    ensures rest == Blank(s[..0]) + Strip(s[0..])
  {
    assert s[0..] == s;
  }

  /** What a scanner in `mode` still blanks before it is back in code. */
  function EndOf(s: string, mode: Mode): (n: nat)
    ensures n <= |s|
  {
    match mode
    case LineComment => FirstIndex(s, '\n')
    case BlockComment(d) => BlockEnd(s, d)
    case Str => StringEnd(s)
    case Raw(k) => RawEnd(s, k)
    case Code => 0
  }

  predicate Open(mode: Mode) {
    mode.BlockComment? ==> mode.depth > 0
  }

  lemma EndOfTurns(s: string, mode: Mode, t: Turn, tail: string)
    requires s != [] && Open(mode) && !mode.Code? && !(mode.LineComment? && s[0] == '\n')
    requires t == Step(s, mode) && tail == s[t.len..]
    ensures !t.kept && Open(t.next) && EndOf(s, mode) == t.len + EndOf(tail, t.next)
  {
    if mode.BlockComment? {
      assert EndOf(s, mode) == BlockTurn(s).0 + BlockEnd(s[BlockTurn(s).0..], mode.depth + BlockTurn(s).1);
    }
  }

  lemma NewlineEndsLineComment(s: string)
    requires s != [] && s[0] == '\n'
    ensures Scan(s, LineComment) == Scan(s, Code)
  {
    ScanUnfolds(s, LineComment, Step(s, LineComment), s[1..]);
    ScanUnfolds(s, Code, Step(s, Code), s[1..]);
    PieceShape(s, LineComment);
    PieceShape(s, Code);
  }

  lemma {:induction false} RestOfLexeme(s: string, mode: Mode, n: nat, rest: string)
    requires Open(mode) && n == EndOf(s, mode) && rest == s[n..]
    ensures Scan(s, mode).0 == Blank(s[..n]) + Strip(rest)
    decreases |s|
  {
    if s == [] || mode.Code? {
      NothingBlanked(s, Strip(s));
    } else if mode.LineComment? && s[0] == '\n' {
      NewlineEndsLineComment(s);
      NothingBlanked(s, Strip(s));
    } else {
      var t := Step(s, mode);
      var tail := s[t.len..];
      EndOfTurns(s, mode, t, tail);
      var m := n - t.len;
      assert rest == tail[m..];
      RestOfLexeme(tail, t.next, m, rest);
      BlankMore(s, mode, t, tail, m, Strip(rest));
    }
  }

  lemma LexemeIsTurnAndRest(s: string, t: Turn, tail: string)
    requires s != [] && t == Step(s, Code) && tail == s[t.len..]
    ensures t.kept <==> NonCodeLen(s) == 0
    ensures !t.kept ==> NonCodeLen(s) == t.len + EndOf(tail, t.next)
    ensures Open(t.next)
  {
  }

  lemma NonCodeScan(s: string, n: nat, rest: string)
    requires s != [] && 0 < n == NonCodeLen(s) && rest == s[n..]
    ensures Strip(s) == Blank(s[..n]) + Strip(rest)
  {
    var t := Step(s, Code);
    LexemeIsTurnAndRest(s, t, s[t.len..]);
    TurnAndRestBlank(s, t, s[t.len..], n, rest);
  }

  lemma TurnAndRestBlank(s: string, t: Turn, tail: string, n: nat, rest: string)
    requires s != [] && t == Step(s, Code) && !t.kept && tail == s[t.len..] && Open(t.next)
    requires n == t.len + EndOf(tail, t.next) && rest == s[n..]
    ensures Strip(s) == Blank(s[..n]) + Strip(rest)
  {
    var m := n - t.len;
    assert rest == tail[m..];
    RestOfLexeme(tail, t.next, m, rest);
    BlankMore(s, Code, t, tail, m, Strip(rest));
  }

  lemma HeadIsRendered(s: string, lexeme: Lexeme, tail: string)
    requires s != [] && Head(s) == (lexeme, tail)
    ensures Strip(s) == RenderOne(lexeme) + Strip(tail)
  {
    if lexeme.Plain? {
      ScanUnfolds(s, Code, Step(s, Code), tail);
    } else {
      NonCodeScan(s, NonCodeLen(s), tail);
    }
  }

  /** The scanner blanks exactly the non-code lexemes, each as a whole. */
  lemma {:induction false} StripRendersLexemes(source: string)
    ensures Strip(source) == Render(Lex(source))
  {
    if source == [] {
    } else {
      var (lexeme, tail) := Head(source);
      StripRendersLexemes(tail);
      SourceUnfolds(source, lexeme, tail);
      HeadIsRendered(source, lexeme, tail);
    }
  }

  // ---------- The client's question ----------

  /** Is the character at `i` a character of code? */
  ghost predicate IsCode(s: string, i: nat)
    requires i < |s|
  {
    var n := NonCodeLen(s);
    if n == 0 then i == 0 || IsCode(s[1..], i - 1)
    else n <= i && IsCode(s[n..], i - n)
  }

  /** At a visible character, the stripped text answers whether that character is code: this is
      how a path attribute found in the source is told from one inside a comment or string. */
  lemma {:induction false} VisibleIffCode(s: string, i: nat)
    requires i < |s| && s[i] != ' ' && s[i] != '\n'
    ensures |Strip(s)| == |s|
    ensures Strip(s)[i] == s[i] <==> IsCode(s, i)
  {
    var n := NonCodeLen(s);
    StripIsAligned(s);
    if n == 0 {
      ScanUnfolds(s, Code, Step(s, Code), s[1..]);
      if i > 0 {
        VisibleIffCode(s[1..], i - 1);
        assert Strip(s)[i] == Strip(s[1..])[i - 1];
      }
    } else {
      NonCodeScan(s, n, s[n..]);
      if n <= i {
        VisibleIffCode(s[n..], i - n);
      }
    }
  }

  /** The line breaks of the stripped text, as `splitlines` finds them, are those of the source
      exactly when every line break other than a newline is code. */
  lemma LineBreaksAreKeptIff(s: string)
    ensures |Strip(s)| == |s|
    ensures (forall i :: 0 <= i < |s| ==> (IsLineBreak(Strip(s)[i]) <==> IsLineBreak(s[i]))) <==>
      forall i :: 0 <= i < |s| && IsLineBreak(s[i]) && s[i] != '\n' ==> IsCode(s, i)
  {
    StripIsAligned(s);
    forall i | 0 <= i < |s| && IsLineBreak(s[i]) && s[i] != '\n'
      ensures IsLineBreak(Strip(s)[i]) <==> IsCode(s, i)
    {
      VisibleIffCode(s, i);
    }
  }

  /** A form feed inside a line comment breaks a line of the source and none of the stripped text. */
  lemma FormFeedIsLost()
    ensures var s := "//\U{C}x"; IsLineBreak(s[2]) && |Strip(s)| == 4 && !IsLineBreak(Strip(s)[2])
  {
    var s := "//\U{C}x";
    VisibleIffCode(s, 2);
    StripIsAligned(s);
    assert s[2..] == "\U{C}x" && FirstIndex(s[2..], '\n') == 2;
  }
}
