/** The five-state scanner that blanks comments, strings and char literals out of Rust source.

    Every function below looks only at the text from the current index on, because neither the
    scanner nor its two regular expressions ever look behind that index. */
module RustBlanker {
  import opened Lists

  // ---------- The two regular expressions ----------

  predicate IsHex(c: char) {
    '0' <= c <= '9' || 'A' <= c <= 'F' || 'a' <= c <= 'f'
  }

  predicate IsScalarDigit(c: char) {
    IsHex(c) || c == '_'
  }

  const HEX_DIGITS: set<char> :=
    {'0', '1', '2', '3', '4', '5', '6', '7', '8', '9', 'A', 'B', 'C', 'D', 'E', 'F', 'a', 'b', 'c', 'd', 'e', 'f'}

  lemma HexDigitsAre(c: char)
    ensures IsHex(c) <==> c in HEX_DIGITS
  {
  }

  /** The language of the char-literal expression: a plain character, a one-letter escape, a
      two-digit escape, or a braced escape of one to six digits. */
  predicate IsCharLiteral(t: string) {
    || (|t| == 3 && Quoted(t) && t[1] !in {'\\', '\'', '\n'})
    || (|t| == 4 && Quoted(t) && t[1] == '\\' && t[2] in {'n', 'r', 't', '0', '\\', '\'', '"'})
    || (|t| == 6 && Quoted(t) && t[1] == '\\' && t[2] == 'x' && t[3] in HEX_DIGITS && t[4] in HEX_DIGITS)
    || (7 <= |t| <= 12 && Quoted(t) && IsBracedEscape(t))
  }

  predicate Quoted(t: string)
    requires |t| > 2
  {
    t[0] == '\'' && t[|t| - 1] == '\''
  }

  predicate IsBracedEscape(t: string)
    requires |t| >= 7
  {
    && t[1] == '\\' && t[2] == 'u' && t[3] == '{' && t[|t| - 2] == '}'
    && forall k :: 4 <= k < |t| - 2 ==> t[k] in HEX_DIGITS || t[k] == '_'
  }

  /** Length of the longest prefix of scalar digits, cut off at `limit`. */
  function DigitRun(s: string, limit: nat): (n: nat)
    ensures n <= limit && n <= |s|
    ensures forall k :: 0 <= k < n ==> IsScalarDigit(s[k])
    ensures n == limit || n == |s| || !IsScalarDigit(s[n])
  {
    if limit == 0 || s == [] || !IsScalarDigit(s[0]) then 0 else 1 + DigitRun(s[1..], limit - 1)
  }

  /** Length of the char literal at the start of `s`, 0 when there is none. */
  function CharLiteralLen(s: string): nat {
    if |s| < 3 || s[0] != '\'' then 0
    else if s[1] != '\\' then
      if s[1] != '\'' && s[1] != '\n' && s[2] == '\'' then 3 else 0
    else if s[2] in "nrt0\\'\"" then
      if |s| >= 4 && s[3] == '\'' then 4 else 0
    else if s[2] == 'x' then
      if |s| >= 6 && IsHex(s[3]) && IsHex(s[4]) && s[5] == '\'' then 6 else 0
    else if s[2] == 'u' && |s| > 3 && s[3] == '{' then
      var k := DigitRun(s[4..], 6);
      if k > 0 && |s| >= k + 6 && s[k + 4] == '}' && s[k + 5] == '\'' then k + 6 else 0
    else 0
  }

  /** The length function accepts exactly the language, and a match has only one length. */
  lemma CharLiteralLenIsExact(s: string, n: nat)
    requires n <= |s|
    ensures IsCharLiteral(s[..n]) <==> 0 < n == CharLiteralLen(s)
  {
    forall c
      ensures IsHex(c) <==> c in HEX_DIGITS
    {
      HexDigitsAre(c);
    }
    if |s| >= 7 && s[0] == '\'' && s[1] == '\\' && s[2] == 'u' && s[3] == '{' {
      BracedEscapeLenIsExact(s, n);
    }
  }

  lemma BracedEscapeLenIsExact(s: string, n: nat)
    requires n <= |s| && |s| >= 7 && s[0] == '\'' && s[1] == '\\' && s[2] == 'u' && s[3] == '{'
    ensures IsCharLiteral(s[..n]) <==> 0 < n == CharLiteralLen(s)
  {
    forall c
      ensures IsHex(c) <==> c in HEX_DIGITS
    {
      HexDigitsAre(c);
    }
    var digits := s[4..];
    var k := DigitRun(digits, 6);
    assert forall j :: 4 <= j < |s| ==> s[j] == digits[j - 4];
    if IsCharLiteral(s[..n]) {
      assert s[..n][n - 2] == digits[n - 6] == '}';
      assert forall j :: 0 <= j < n - 6 ==> digits[j] == s[..n][j + 4];
      assert k == n - 6;
    }
    if 0 < k && n == k + 6 && s[k + 4] == '}' && s[k + 5] == '\'' {
      assert forall j :: 4 <= j < n - 2 ==> s[..n][j] == digits[j - 4];
    }
  }

  function Hashes(k: nat): (h: string)
    ensures |h| == k && forall j :: 0 <= j < k ==> h[j] == '#'
  {
    seq(k, _ => '#')
  }

  function HashRun(s: string, limit: nat): (n: nat)
    ensures n <= limit && n <= |s|
    ensures forall k :: 0 <= k < n ==> s[k] == '#'
    ensures n == limit || n == |s| || s[n] != '#'
  {
    if limit == 0 || s == [] || s[0] != '#' then 0 else 1 + HashRun(s[1..], limit - 1)
  }

  /** The language of the raw-string opening, with the hash count it captures. */
  predicate IsRawOpen(t: string, hashes: nat) {
    hashes <= 255 && (t == "r" + Hashes(hashes) + "\"" || t == "br" + Hashes(hashes) + "\"")
  }

  function RawPrefixLen(s: string): nat {
    if |s| > 0 && s[0] == 'b' then 2 else 1
  }

  /** Length of the raw-string opening at the start of `s`, 0 when there is none. */
  function RawOpenLen(s: string): nat {
    var p := RawPrefixLen(s);
    if |s| < p || s[p - 1] != 'r' then 0
    else
      var k := HashRun(s[p..], 255);
      if p + k < |s| && s[p + k] == '"' then p + k + 1 else 0
  }

  function RawHashes(s: string): nat
    requires RawOpenLen(s) > 0
  {
    RawOpenLen(s) - RawPrefixLen(s) - 1
  }

  lemma RawOpenLenIsExact(s: string, n: nat, hashes: nat)
    requires n <= |s|
    ensures IsRawOpen(s[..n], hashes) <==> 0 < n == RawOpenLen(s) && hashes == RawHashes(s)
  {
    var t, p := s[..n], RawPrefixLen(s);
    assert forall k :: 0 <= k < n ==> t[k] == s[k];
    if IsRawOpen(t, hashes) {
      assert t[0] == 'r' || (t[0] == 'b' && t[1] == 'r');
      assert n == p + hashes + 1 && t[n - 1] == '"';
      assert forall j :: 0 <= j < n - p ==> s[p..][j] == t[p + j];
      assert HashRun(s[p..], 255) == hashes;
    }
  }

  // ---------- One scanner step ----------

  /** The two characters at the head of `s`. */
  predicate Pair(s: string, a: char, b: char) {
    |s| > 1 && s[0] == a && s[1] == b
  }

  datatype Mode = Code | LineComment | BlockComment(depth: nat) | Str | Raw(hashes: nat)

  /** What one turn of the scanner loop consumes, whether it copies it, and the mode it leaves. */
  datatype Turn = Turn(len: nat, kept: bool, next: Mode)

  function Step(s: string, mode: Mode): (t: Turn)
    requires s != []
    ensures 1 <= t.len <= |s|
    ensures t.kept ==> mode.Code? && t.len == 1 && t.next.Code?
  {
    match mode
    case LineComment => Turn(1, false, if s[0] == '\n' then Code else LineComment)
    case BlockComment(d) =>
      if Pair(s, '/', '*') then Turn(2, false, BlockComment(d + 1))
      else if Pair(s, '*', '/') then Turn(2, false, if d <= 1 then Code else BlockComment(d - 1))
      else Turn(1, false, mode)
    case Str =>
      if s[0] == '\\' && |s| > 1 then Turn(2, false, Str)
      else Turn(1, false, if s[0] == '"' then Code else Str)
    case Raw(k) =>
      if "\"" + Hashes(k) <= s then Turn(k + 1, false, Code) else Turn(1, false, mode)
    case Code =>
      if Pair(s, '/', '/') then Turn(2, false, LineComment)
      else if Pair(s, '/', '*') then Turn(2, false, BlockComment(1))
      else if CharLiteralLen(s) > 0 then Turn(CharLiteralLen(s), false, Code)
      else if s[0] == '"' then Turn(1, false, Str)
      else if RawOpenLen(s) > 0 then Turn(RawOpenLen(s), false, Raw(RawHashes(s)))
      else Turn(1, true, Code)
  }

  function Blank(t: string): (b: string)
    ensures |b| == |t|
    ensures forall i :: 0 <= i < |t| ==> b[i] == if t[i] == '\n' then '\n' else ' '
  {
    seq(|t|, i requires 0 <= i < |t| => if t[i] == '\n' then '\n' else ' ')
  }

  /** What a turn over the head of `s` appends to the output. */
  function Piece(s: string, t: Turn): (p: string)
    requires t.len <= |s|
    ensures |p| == t.len
  {
    if t.kept then s[..t.len] else Blank(s[..t.len])
  }

  function BlankChar(c: char): string {
    [if c == '\n' then '\n' else ' ']
  }

  /** The output for `s` when the scanner is in `mode`, and the mode it ends in. */
  function Scan(s: string, mode: Mode): (r: (string, Mode))
    ensures |r.0| == |s|
  {
    if s == [] then ("", mode)
    else
      var t := Step(s, mode);
      var rest := Scan(s[t.len..], t.next);
      (Piece(s, t) + rest.0, rest.1)
  }

  function Strip(source: string): string {
    Scan(source, Code).0
  }

  // ---------- The loop ----------

  datatype State = InCode | InLineComment | InBlockComment | InString | InRawString

  function ModeOf(state: State, blockDepth: nat, rawHashes: nat): Mode {
    match state
    case InCode => Code
    case InLineComment => LineComment
    case InBlockComment => BlockComment(blockDepth)
    case InString => Str
    case InRawString => Raw(rawHashes)
  }

  function Spaces(n: nat): string {
    seq(n, _ => ' ')
  }

  /** The multi-character tokens the loop replaces by spaces contain no newline. */
  lemma TokensHaveNoNewline(s: string)
    ensures CharLiteralLen(s) <= |s| && forall k :: 0 <= k < CharLiteralLen(s) ==> s[k] != '\n'
    ensures RawOpenLen(s) <= |s| && forall k :: 0 <= k < RawOpenLen(s) ==> s[k] != '\n'
  {
    assert forall k :: 4 <= k < |s| ==> s[k] == s[4..][k - 4];
    var p := RawPrefixLen(s);
    assert forall k :: p <= k < |s| ==> s[k] == s[p..][k - p];
  }

  lemma BlankIsSpaces(t: string)
    requires forall k :: 0 <= k < |t| ==> t[k] != '\n'
    ensures Blank(t) == Spaces(|t|)
  {
  }

  /** One turn moves the scanner on by one token. */
  lemma ScanTurn(s: string, mode: Mode, output: string) returns (turn: Turn, s': string)
    requires s != []
    ensures turn == Step(s, mode) && s' == s[turn.len..]
    ensures output + Scan(s, mode).0 == (output + Piece(s, turn)) + Scan(s', turn.next).0
  {
    turn := Step(s, mode);
    s' := s[turn.len..];
    Associate(output, Piece(s, turn), Scan(s', turn.next).0);
  }

  lemma PieceShape(s: string, mode: Mode)
    requires s != []
    ensures var t := Step(s, mode);
      && (t.kept ==> Piece(s, t) == [s[0]])
      && (!t.kept && t.len == 1 ==> Piece(s, t) == BlankChar(s[0]))
      && (t.len > 1 ==> Piece(s, t) == if mode.Str? then BlankChar(s[0]) + BlankChar(s[1]) else Spaces(t.len))
  {
    var t := Step(s, mode);
    if t.len > 1 && !mode.Str? {
      TokensHaveNoNewline(s);
      assert mode.Raw? ==> forall k :: 0 <= k < t.len ==> s[k] == ("\"" + Hashes(mode.hashes))[k];
      BlankIsSpaces(s[..t.len]);
    }
  }

  /** The part of the loop body that runs in the state "code". */
  method CodeTurn(source: string, index: nat, output: string)
    returns (output': string, index': nat, state: State, blockDepth: nat, rawHashes: nat)
    requires index < |source|
    ensures var t := Step(source[index..], Code);
      && output' == output + Piece(source[index..], t)
      && index' == index + t.len
      && ModeOf(state, blockDepth, rawHashes) == t.next
    ensures state.InBlockComment? ==> blockDepth > 0
  {
    PieceShape(source[index..], Code);
    var c := source[index];
    state, blockDepth, rawHashes := InCode, 0, 0;
    if Pair(source[index..], '/', '/') {
      output' := output + Spaces(2);
      index' := index + 2;
      state := InLineComment;
    } else if Pair(source[index..], '/', '*') {
      output' := output + Spaces(2);
      index' := index + 2;
      blockDepth := 1;
      state := InBlockComment;
    } else if CharLiteralLen(source[index..]) > 0 {
      var n := CharLiteralLen(source[index..]);
      output' := output + Spaces(n);
      index' := index + n;
    } else if c == '"' {
      output' := output + Spaces(1);
      index' := index + 1;
      state := InString;
    } else if RawOpenLen(source[index..]) > 0 {
      var n := RawOpenLen(source[index..]);
      rawHashes := RawHashes(source[index..]);
      output' := output + Spaces(n);
      index' := index + n;
      state := InRawString;
    } else {
      output' := output + [c];
      index' := index + 1;
    }
  }

  /** The part of the loop body that runs inside a comment or a string. */
  method NonCodeTurn(source: string, index: nat, output: string, state: State, blockDepth: nat, rawHashes: nat)
    returns (output': string, index': nat, state': State, blockDepth': nat)
    requires index < |source| && !state.InCode? && (state.InBlockComment? ==> blockDepth > 0)
    ensures var t := Step(source[index..], ModeOf(state, blockDepth, rawHashes));
      && output' == output + Piece(source[index..], t)
      && index' == index + t.len
      && ModeOf(state', blockDepth', rawHashes) == t.next
    ensures state'.InBlockComment? ==> blockDepth' > 0
  {
    PieceShape(source[index..], ModeOf(state, blockDepth, rawHashes));
    var c := source[index];
    state', blockDepth' := state, blockDepth;
    if state.InLineComment? {
      output' := output + BlankChar(c);
      index' := index + 1;
      if c == '\n' {
        state' := InCode;
      }
    } else if state.InBlockComment? {
      if Pair(source[index..], '/', '*') {
        blockDepth' := blockDepth + 1;
        output' := output + Spaces(2);
        index' := index + 2;
      } else if Pair(source[index..], '*', '/') {
        blockDepth' := blockDepth - 1;
        output' := output + Spaces(2);
        index' := index + 2;
        if blockDepth' == 0 {
          state' := InCode;
        }
      } else {
        output' := output + BlankChar(c);
        index' := index + 1;
      }
    } else if state.InString? {
      output' := output + BlankChar(c);
      index' := index + 1;
      if c == '\\' && index' < |source| {
        output' := output' + BlankChar(source[index']);
        index' := index' + 1;
      } else if c == '"' {
        state' := InCode;
      }
    } else if state.InRawString? {
      var terminator := "\"" + Hashes(rawHashes);
      if terminator <= source[index..] {
        output' := output + Spaces(|terminator|);
        index' := index + |terminator|;
        state' := InCode;
      } else {
        output' := output + BlankChar(c);
        index' := index + 1;
      }
    }
  }

  method StripRustNonCode(source: string) returns (output: string)
    ensures output == Strip(source)
  {
    output := "";
    var index, blockDepth, state, rawHashes := 0, 0, InCode, 0;
    ghost var mode, rest := Code, source;
    while index < |source|
      invariant 0 <= index <= |source|
      invariant state.InBlockComment? ==> blockDepth > 0
      invariant mode == ModeOf(state, blockDepth, rawHashes)
      invariant rest == source[index..]
      invariant Strip(source) == output + Scan(rest, mode).0
    {
      ghost var turn, rest' := ScanTurn(rest, mode, output);
      if state.InCode? {
        output, index, state, blockDepth, rawHashes := CodeTurn(source, index, output);
      } else {
        output, index, state, blockDepth := NonCodeTurn(source, index, output, state, blockDepth, rawHashes);
      }
      mode, rest := turn.next, rest';
    }
  }
}
