/** What the callers of the blanker rely on: alignment, composition over lines, idempotence, and
    agreement with a lexer that reads one whole comment, string or literal at a time. */
module RustBlankerTheorems {
  import opened Lists
  import opened RustBlanker

  // ---------- Alignment ----------

  /** Same length, newlines at the same places, every character kept or blanked, no quote left. */
  ghost predicate Aligned(s: string, out: string) {
    && |out| == |s|
    && forall i :: 0 <= i < |s| ==>
         && (out[i] == s[i] || out[i] == ' ')
         && (out[i] == '\n' <==> s[i] == '\n')
         && out[i] != '"'
  }

  lemma {:induction false} ScanIsAligned(s: string, mode: Mode)
    ensures Aligned(s, Scan(s, mode).0)
  {
    if s == [] {
    } else {
      var t := Step(s, mode);
      ScanIsAligned(s[t.len..], t.next);
      PieceIsAligned(s, mode);
      var rest := Scan(s[t.len..], t.next).0;
      forall i | t.len <= i < |s|
        ensures Scan(s, mode).0[i] == rest[i - t.len] && s[i] == s[t.len..][i - t.len]
      {
      }
    }
  }

  lemma PieceIsAligned(s: string, mode: Mode)
    requires s != []
    ensures var t := Step(s, mode); Aligned(s[..t.len], Piece(s, t))
  {
  }

  lemma StripIsAligned(source: string)
    ensures Aligned(source, Strip(source))
  {
    ScanIsAligned(source, Code);
  }

  // ---------- Composition ----------

  /** Scanning may be cut after any newline: no token starts before one and ends after it. */
  lemma {:induction false} ScanComposes(prefix: string, rest: string, mode: Mode)
    requires prefix == [] || prefix[|prefix| - 1] == '\n'
    ensures Scan(prefix + rest, mode).0 == Scan(prefix, mode).0 + Scan(rest, Scan(prefix, mode).1).0
    ensures Scan(prefix + rest, mode).1 == Scan(rest, Scan(prefix, mode).1).1
  {
    if prefix == [] {
      assert prefix + rest == rest && "" + Scan(rest, mode).0 == Scan(rest, mode).0;
    } else {
      var t, tail := CutTurn(prefix, rest, mode);
      ScanComposes(tail, rest, t.next);
      ScanUnfolds(prefix + rest, mode, t, tail + rest);
      ScanUnfolds(prefix, mode, t, tail);
      Associate(Piece(prefix, t), Scan(tail, t.next).0, Scan(rest, Scan(tail, t.next).1).0);
    }
  }

  /** The first turn over a prefix does not notice the text after the prefix. */
  lemma CutTurn(prefix: string, rest: string, mode: Mode) returns (t: Turn, tail: string)
    requires prefix != [] && prefix[|prefix| - 1] == '\n'
    ensures t == Step(prefix, mode) == Step(prefix + rest, mode)
    ensures tail == prefix[t.len..] && (prefix + rest)[t.len..] == tail + rest
    ensures tail == [] || tail[|tail| - 1] == '\n'
    ensures Piece(prefix + rest, t) == Piece(prefix, t)
  {
    StepIsLocal(prefix, rest, mode);
    t, tail := Step(prefix, mode), prefix[Step(prefix, mode).len..];
    assert (prefix + rest)[..t.len] == prefix[..t.len];
  }

  lemma ScanUnfolds(s: string, mode: Mode, t: Turn, tail: string)
    requires s != [] && t == Step(s, mode) && tail == s[t.len..]
    ensures Scan(s, mode) == (Piece(s, t) + Scan(tail, t.next).0, Scan(tail, t.next).1)
  {
  }

  lemma StepIsLocal(prefix: string, rest: string, mode: Mode)
    requires prefix != [] && prefix[|prefix| - 1] == '\n'
    ensures Step(prefix + rest, mode) == Step(prefix, mode)
  {
    var s := prefix + rest;
    assert forall k :: 0 <= k < |prefix| ==> s[k] == prefix[k];
    match mode
    case Raw(k) => TerminatorIsLocal(prefix, rest, k);
    case Code =>
      CharLiteralIsLocal(prefix, rest);
      RawOpenIsLocal(prefix, rest);
    case _ =>
  }

  lemma TerminatorIsLocal(prefix: string, rest: string, k: nat)
    requires prefix != [] && prefix[|prefix| - 1] == '\n'
    ensures "\"" + Hashes(k) <= prefix + rest <==> "\"" + Hashes(k) <= prefix
  {
    var s, q := prefix + rest, "\"" + Hashes(k);
    assert forall j :: 0 <= j < |q| ==> q[j] != '\n';
    assert s[|prefix| - 1] == '\n';
    assert q <= s ==> |q| < |prefix|;
  }

  /** A match without a newline lies inside a prefix that ends with one. */
  lemma InsidePrefix(prefix: string, rest: string, n: nat)
    requires prefix != [] && prefix[|prefix| - 1] == '\n' && n <= |prefix + rest|
    requires forall k :: 0 <= k < n ==> (prefix + rest)[k] != '\n'
    ensures n < |prefix| && (prefix + rest)[..n] == prefix[..n]
  {
    assert (prefix + rest)[|prefix| - 1] == '\n';
  }

  lemma SamePrefix(prefix: string, rest: string, m: nat)
    requires m <= |prefix|
    ensures (prefix + rest)[..m] == prefix[..m]
  {
  }

  /** Neither regular expression matches across a newline. */
  lemma CharLiteralIsLocal(prefix: string, rest: string)
    requires prefix != [] && prefix[|prefix| - 1] == '\n'
    ensures CharLiteralLen(prefix + rest) == CharLiteralLen(prefix)
  {
    var s := prefix + rest;
    var n, m := CharLiteralLen(s), CharLiteralLen(prefix);
    TokensHaveNoNewline(s);
    TokensHaveNoNewline(prefix);
    InsidePrefix(prefix, rest, n);
    SamePrefix(prefix, rest, m);
    CharLiteralLenIsExact(s, n);
    CharLiteralLenIsExact(s, m);
    CharLiteralLenIsExact(prefix, n);
    CharLiteralLenIsExact(prefix, m);
  }

  lemma RawOpenIsLocal(prefix: string, rest: string)
    requires prefix != [] && prefix[|prefix| - 1] == '\n'
    ensures RawOpenLen(prefix + rest) == RawOpenLen(prefix)
    ensures RawPrefixLen(prefix + rest) == RawPrefixLen(prefix)
  {
    var s := prefix + rest;
    var n, m := RawOpenLen(s), RawOpenLen(prefix);
    TokensHaveNoNewline(s);
    TokensHaveNoNewline(prefix);
    assert s[0] == prefix[0];
    InsidePrefix(prefix, rest, n);
    SamePrefix(prefix, rest, m);
    if n > 0 {
      RawOpenLenIsExact(s, n, RawHashes(s));
      RawOpenLenIsExact(prefix, n, RawHashes(s));
    }
    if m > 0 {
      RawOpenLenIsExact(prefix, m, RawHashes(prefix));
      RawOpenLenIsExact(s, m, RawHashes(prefix));
    }
  }

  // ---------- Idempotence ----------

  /** No comment, string or literal starts anywhere in `u`. */
  ghost predicate Clean(u: string) {
    u == [] || (Step(u, Code).kept && Clean(u[1..]))
  }

  lemma {:induction false} CleanIsFixed(u: string)
    requires Clean(u)
    ensures Strip(u) == u
  {
    if u == [] {
    } else {
      CleanIsFixed(u[1..]);
      assert u == u[..1] + u[1..];
    }
  }

  lemma BlankStartsNothing(u: string)
    requires u != [] && (u[0] == ' ' || u[0] == '\n')
    ensures Step(u, Code).kept
  {
  }

  lemma {:induction false} BlankThenClean(t: string, u: string)
    requires Clean(u)
    ensures Clean(Blank(t) + u)
  {
    if t == [] {
      assert Blank(t) + u == u;
    } else {
      BlankThenClean(t[1..], u);
      var w := Blank(t) + u;
      BlankStartsNothing(w);
      assert w[1..] == Blank(t[1..]) + u;
    }
  }

  /** A blanked first character is followed by another blanked one: no token is one character long
      and followed by code. */
  lemma BlanksComeInPairs(s: string)
    requires |s| > 1
    ensures Strip(s)[0] != s[0] ==> Strip(s)[1] == ' ' || Strip(s)[1] == '\n'
  {
    var t := Step(s, Code);
    var rest := s[t.len..];
    ScanUnfolds(s, Code, t, rest);
    PieceShape(s, Code);
    if t.len == 1 {
      ScanUnfolds(rest, Str, Step(rest, Str), rest[Step(rest, Str).len..]);
      PieceShape(rest, Str);
    }
  }

  /** A kept character in front of the stripped text that follows it. */
  ghost predicate Fronted(s: string, u: string) {
    && |s| == |u| > 0 && s[0] == u[0]
    && (forall k :: 1 <= k < |s| ==> u[k] != '"' && (u[k] == s[k] || u[k] == ' '))
    && (|s| > 2 && u[1] != s[1] ==> u[2] == ' ' || u[2] == '\n')
  }

  lemma StripIsFronted(s: string, u: string)
    requires s != [] && u == [s[0]] + Strip(s[1..])
    ensures Fronted(s, u)
  {
    var tail := s[1..];
    StripIsAligned(tail);
    assert forall k :: 1 <= k < |s| ==> u[k] == Strip(tail)[k - 1] && s[k] == tail[k - 1];
    if |tail| > 1 {
      BlanksComeInPairs(tail);
    }
  }

  /** A character kept in front of scanned text starts no token there either. */
  lemma KeptStaysKept(s: string, u: string)
    requires Fronted(s, u) && Step(s, Code).kept
    ensures Step(u, Code).kept
  {
    NoLiteralAppears(s, u);
    NoRawOpenAppears(u);
  }

  lemma NoRawOpenAppears(u: string)
    requires forall k :: 0 < k < |u| ==> u[k] != '"'
    ensures RawOpenLen(u) == 0
  {
  }

  lemma NoLiteralAppears(s: string, u: string)
    requires Fronted(s, u) && CharLiteralLen(s) == 0
    ensures CharLiteralLen(u) == 0
  {
    var n := CharLiteralLen(u);
    CharLiteralLenIsExact(u, n);
    if n > 0 {
      LiteralIsNotNew(s, u, n);
      CharLiteralLenIsExact(s, n);
    }
  }

  lemma LiteralIsNotNew(s: string, u: string, n: nat)
    requires Fronted(s, u) && n <= |u| && IsCharLiteral(u[..n])
    ensures IsCharLiteral(s[..n])
  {
    LiteralHasNoInnerBlank(u[..n]);
    assert forall k :: 0 <= k < n ==> u[k] == u[..n][k];
    assert s[..n] == u[..n];
  }

  lemma LiteralHasNoInnerBlank(t: string)
    requires IsCharLiteral(t)
    ensures forall k :: 0 <= k < |t| && t[k] == ' ' ==> |t| == 3 && k == 1
  {
  }

  lemma {:induction false} ScanIsClean(s: string, mode: Mode)
    ensures Clean(Scan(s, mode).0)
  {
    if s == [] {
    } else {
      var t := Step(s, mode);
      ScanIsClean(s[t.len..], t.next);
      if t.kept {
        var u := [s[0]] + Strip(s[1..]);
        StripIsFronted(s, u);
        KeptStaysKept(s, u);
        assert Scan(s, mode).0 == u && u[1..] == Strip(s[1..]);
      } else {
        BlankThenClean(s[..t.len], Scan(s[t.len..], t.next).0);
      }
    }
  }

  /** Stripping stripped source changes nothing. */
  lemma StripIsIdempotent(source: string)
    ensures Strip(Strip(source)) == Strip(source)
  {
    ScanIsClean(source, Code);
    CleanIsFixed(Strip(source));
  }
}
