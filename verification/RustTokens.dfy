/** What the blanker does to each kind of token, and to code, said of whole texts. */
module RustTokens {
  import opened Lists
  import opened RustBlanker
  import opened RustBlankerTheorems
  import opened RustLexemes

  // ---------- Reading off one token ----------

  lemma TokenIsBlanked(t: string, rest: string)
    requires t != "" && NonCodeLen(t + rest) == |t|
    ensures Strip(t + rest) == Blank(t) + Strip(rest)
  {
    NonCodeScan(t + rest, |t|, rest);
    assert (t + rest)[..|t|] == t;
  }

  lemma CodeIsKept(c: char, rest: string)
    requires NonCodeLen([c] + rest) == 0
    ensures Strip([c] + rest) == [c] + Strip(rest)
  {
    var s := [c] + rest;
    LexemeIsTurnAndRest(s, Step(s, Code), s[Step(s, Code).len..]);
    ScanUnfolds(s, Code, Step(s, Code), rest);
  }

  // ---------- Literals ----------

  /** Every char literal is blanked, whatever follows it. */
  lemma LiteralIsBlanked(t: string, rest: string)
    requires IsCharLiteral(t)
    ensures Strip(t + rest) == Blank(t) + Strip(rest)
  {
    var s := t + rest;
    assert s[..|t|] == t && s[0] == t[0] == '\'';
    CharLiteralLenIsExact(s, |t|);
    TokenIsBlanked(t, rest);
  }

  /** A two-digit escape. */
  lemma HexEscapeIsBlanked(high: char, low: char, rest: string)
    requires high in HEX_DIGITS && low in HEX_DIGITS
    ensures Strip(("'\\x" + [high, low] + "'") + rest) == "      " + Strip(rest)
  {
    var t := "'\\x" + [high, low] + "'";
    assert t[0] == '\'' && t[1] == '\\' && t[2] == 'x' && t[3] == high && t[4] == low && t[5] == '\'';
    LiteralIsBlanked(t, rest);
    assert Blank(t) == "      ";
  }

  lemma BracedIsLiteral(digits: string)
    requires 1 <= |digits| <= 6
    requires forall i :: 0 <= i < |digits| ==> digits[i] in HEX_DIGITS || digits[i] == '_'
    ensures IsCharLiteral("'\\u{" + digits + "}'")
  {
    var t := "'\\u{" + digits + "}'";
    assert forall k :: 4 <= k < |t| - 2 ==> t[k] == digits[k - 4];
    assert t[0] == '\'' && t[1] == '\\' && t[2] == 'u' && t[3] == '{' && t[|t| - 2] == '}' && t[|t| - 1] == '\'';
  }

  /** A braced escape of one to six digits or underscores. */
  lemma BracedEscapeIsBlanked(digits: string, rest: string)
    requires 1 <= |digits| <= 6
    requires forall i :: 0 <= i < |digits| ==> digits[i] in HEX_DIGITS || digits[i] == '_'
    ensures var t := "'\\u{" + digits + "}'"; Strip(t + rest) == Spaces(|t|) + Strip(rest)
  {
    var t := "'\\u{" + digits + "}'";
    BracedIsLiteral(digits);
    LiteralIsBlanked(t, rest);
    LiteralIsOneLine(t);
    assert Blank(t) == Spaces(|t|);
  }

  lemma LiteralIsOneLine(t: string)
    requires IsCharLiteral(t)
    ensures forall k :: 0 <= k < |t| ==> t[k] != '\n'
  {
  }

  // ---------- Comments ----------

  /** A line comment is blanked up to its newline. */
  lemma LineCommentIsBlanked(body: string, rest: string)
    requires '\n' !in body && (rest == "" || rest[0] == '\n')
    ensures Strip(("//" + body) + rest) == Blank("//" + body) + Strip(rest)
  {
    var t := "//" + body;
    var s := t + rest;
    assert s[0] == '/' && s[1] == '/' && s[2..] == body + rest;
    if rest == "" {
      assert body + rest == body;
      FirstIndexMissing(body, '\n');
    } else {
      assert (body + rest)[..|body|] == body;
      FirstIndexIs(body + rest, '\n', |body|);
    }
    TokenIsBlanked(t, rest);
  }

  lemma {:induction false} FirstIndexMissing(s: string, c: char)
    requires c !in s
    ensures FirstIndex(s, c) == |s|
  {
    if s == "" {
    } else {
      FirstIndexMissing(s[1..], c);
    }
  }

  /** Neither mark of a block comment starts inside the text, even when a star follows it. */
  ghost predicate HoldsNoMark(body: string) {
    var t := body + "*";
    forall k :: 0 <= k < |body| ==> !(t[k] == '/' && t[k + 1] == '*') && !(t[k] == '*' && t[k + 1] == '/')
  }

  lemma TailHoldsNoMark(body: string)
    requires body != "" && HoldsNoMark(body)
    ensures HoldsNoMark(body[1..])
  {
    var t, t' := body + "*", body[1..] + "*";
    assert forall k :: 0 <= k < |t'| ==> t'[k] == t[k + 1];
  }

  lemma {:induction false} BlockEndsAtMark(body: string, rest: string, depth: nat)
    requires depth > 0 && HoldsNoMark(body)
    ensures BlockEnd((body + "*") + ("/" + rest), depth) == |body| + 2 + BlockEnd(rest, depth - 1)
    decreases |body|
  {
    var t := body + "*";
    var s := t + ("/" + rest);
    if body == "" {
      assert s[0] == '*' && s[1] == '/' && s[2..] == rest;
    } else {
      var tail := s[1..];
      TailHoldsNoMark(body);
      assert s[0] == t[0] && s[1] == t[1] && tail == (body[1..] + "*") + ("/" + rest);
      BlockEndsAtMark(body[1..], rest, depth);
      BlockEndUnfolds(s, depth, 1, depth, tail);
    }
  }

  /** A block comment without marks inside it is blanked, both marks included. */
  lemma BlockCommentIsBlanked(body: string, rest: string)
    requires HoldsNoMark(body)
    ensures Strip(("/*" + body + "*/") + rest) == Blank("/*" + body + "*/") + Strip(rest)
  {
    var t := "/*" + body + "*/";
    var s := t + rest;
    assert s[0] == '/' && s[1] == '*' && s[2..] == (body + "*") + ("/" + rest);
    BlockEndsAtMark(body, rest, 1);
    TokenIsBlanked(t, rest);
  }

  // ---------- Strings ----------

  lemma {:induction false} StringEndsAtQuote(body: string, rest: string)
    requires '"' !in body && '\\' !in body
    ensures StringEnd(body + "\"" + rest) == |body| + 1
  {
    var s := body + "\"" + rest;
    if body == "" {
      assert s[0] == '"';
    } else {
      assert s[0] == body[0] && s[0] in body && s[1..] == body[1..] + "\"" + rest;
      StringEndsAtQuote(body[1..], rest);
    }
  }

  /** A string without quotes and escapes inside it is blanked, both quotes included. */
  lemma StringIsBlanked(body: string, rest: string)
    requires '"' !in body && '\\' !in body
    ensures Strip(("\"" + body + "\"") + rest) == Blank("\"" + body + "\"") + Strip(rest)
  {
    var t := "\"" + body + "\"";
    var s := t + rest;
    assert s[0] == '"' && s[1..] == body + "\"" + rest;
    StringEndsAtQuote(body, rest);
    TokenIsBlanked(t, rest);
  }

  lemma {:induction false} RawEndsAtQuote(mark: string, body: string, rest: string)
    requires mark != "" && mark[0] == '"' && '"' !in body
    ensures EndOfFirst(mark, body + mark + rest) == |body| + |mark|
  {
    var s := body + mark + rest;
    if body == "" {
      assert mark <= s;
    } else {
      assert s[0] == body[0] && s[0] in body && s[1..] == body[1..] + mark + rest;
      RawEndsAtQuote(mark, body[1..], rest);
    }
  }

  /** A raw string without quotes inside it is blanked, with its prefix, quotes and hashes. */
  lemma RawStringIsBlanked(prefix: string, hashes: nat, body: string, rest: string)
    requires prefix in {"r", "br"} && hashes <= 255 && '"' !in body
    ensures var open, close := prefix + Hashes(hashes) + "\"", "\"" + Hashes(hashes);
      Strip((open + body + close) + rest) == Blank(open + body + close) + Strip(rest)
  {
    var open, close := prefix + Hashes(hashes) + "\"", "\"" + Hashes(hashes);
    var t := open + body + close;
    var s := t + rest;
    assert s[..|open|] == open && s[|open|..] == body + close + rest;
    assert s[0] == prefix[0] && s[0] in {'r', 'b'};
    RawOpenLenIsExact(s, |open|, hashes);
    CharLiteralLenIsExact(s, 0);
    RawEndsAtQuote(close, body, rest);
    TokenIsBlanked(t, rest);
  }

  // ---------- Code ----------

  /** A character that can start no token stays. */
  lemma PlainCodeIsKept(c: char, rest: string)
    requires c !in {'/', '\'', '"', 'r', 'b'}
    ensures Strip([c] + rest) == [c] + Strip(rest)
  {
    CodeIsKept(c, rest);
  }

  /** A slash that starts no comment stays. */
  lemma SlashIsKept(rest: string)
    requires rest == "" || (rest[0] != '/' && rest[0] != '*')
    ensures Strip("/" + rest) == "/" + Strip(rest)
  {
    CodeIsKept('/', rest);
  }

  /** A quote that starts no char literal, as in a lifetime, stays. */
  lemma LoneQuoteIsKept(rest: string)
    requires forall n :: 0 <= n <= |rest| ==> !IsCharLiteral("'" + rest[..n])
    ensures Strip("'" + rest) == "'" + Strip(rest)
  {
    var s := "'" + rest;
    TokensHaveNoNewline(s);
    CharLiteralLenIsExact(s, CharLiteralLen(s));
    assert forall n :: 0 < n <= |s| ==> s[..n] == "'" + rest[..n - 1];
    CodeIsKept('\'', rest);
  }

  /** A letter that starts no raw string stays. */
  lemma LetterIsKept(c: char, rest: string)
    requires c in {'r', 'b'} && forall n, hashes :: 0 <= n <= |rest| ==> !IsRawOpen([c] + rest[..n], hashes)
    ensures Strip([c] + rest) == [c] + Strip(rest)
  {
    var s := [c] + rest;
    TokensHaveNoNewline(s);
    RawOpenLenIsExact(s, RawOpenLen(s), if RawOpenLen(s) > 0 then RawHashes(s) else 0);
    assert forall n :: 0 < n <= |s| ==> s[..n] == [c] + rest[..n - 1];
    CodeIsKept(c, rest);
  }
}
