/** The string operations of Python that the scripts rely on. */
module PythonText {
  /** The white space that Python's `str.strip` removes. */
  predicate IsSpace(c: char) {
    var n := c as int;
    || 9 <= n <= 13 || 28 <= n <= 32 || n == 0x85 || n == 0xA0 || n == 0x1680
    || 0x2000 <= n <= 0x200A || n == 0x2028 || n == 0x2029 || n == 0x202F || n == 0x205F || n == 0x3000
  }

  /** The characters at which Python's `str.splitlines` breaks. */
  predicate IsLineBreak(c: char) {
    var n := c as int;
    10 <= n <= 13 || 28 <= n <= 30 || n == 0x85 || n == 0x2028 || n == 0x2029
  }

  function TrimStart(s: string): string {
    if s != "" && IsSpace(s[0]) then TrimStart(s[1..]) else s
  }

  function TrimEnd(s: string): string {
    if s != "" && IsSpace(s[|s| - 1]) then TrimEnd(s[..|s| - 1]) else s
  }

  function Trim(s: string): string {
    TrimEnd(TrimStart(s))
  }

  predicate Trimmed(s: string) {
    s == "" || (!IsSpace(s[0]) && !IsSpace(s[|s| - 1]))
  }

  lemma {:induction false} TrimStartDrops(s: string) returns (d: nat)
    ensures d <= |s| && TrimStart(s) == s[d..]
    ensures forall k :: 0 <= k < d ==> IsSpace(s[k])
    ensures d < |s| ==> !IsSpace(s[d])
  {
    if s != "" && IsSpace(s[0]) {
      var d' := TrimStartDrops(s[1..]);
      d := d' + 1;
      assert forall k :: 1 <= k < |s| ==> s[k] == s[1..][k - 1];
    } else {
      d := 0;
    }
  }

  lemma {:induction false} TrimEndKeeps(s: string) returns (n: nat)
    ensures n <= |s| && TrimEnd(s) == s[..n]
    ensures n > 0 ==> !IsSpace(s[n - 1])
    ensures forall k :: n <= k < |s| ==> IsSpace(s[k])
  {
    if s != "" && IsSpace(s[|s| - 1]) {
      n := TrimEndKeeps(s[..|s| - 1]);
      assert s[..|s| - 1][..n] == s[..n];
    } else {
      n := |s|;
    }
  }

  lemma TrimTrims(s: string)
    ensures Trimmed(Trim(s))
  {
    var d := TrimStartDrops(s);
    var n := TrimEndKeeps(s[d..]);
  }

  lemma TrimmedIsFixed(s: string)
    requires Trimmed(s)
    ensures Trim(s) == s
  {
  }

  /** What `require_nonempty_string` refuses: stripping leaves nothing. */
  predicate IsBlank(s: string) {
    forall i :: 0 <= i < |s| ==> IsSpace(s[i])
  }

  lemma BlankIffNothingIsLeft(s: string)
    ensures IsBlank(s) <==> Trim(s) == ""
  {
    var d := TrimStartDrops(s);
    var n := TrimEndKeeps(s[d..]);
    assert d < |s| ==> s[d..][0] == s[d];
  }

  predicate IsHttps(s: string) {
    |s| >= 8 && s[..8] == "https://"
  }

  /** `rstrip("/")`. */
  function StripSlashes(s: string): string {
    if s != "" && s[|s| - 1] == '/' then StripSlashes(s[..|s| - 1]) else s
  }

  // ---------- The same, said from outside ----------

  ghost const SPACES: set<char> :=
    {'\t', '\n', '\U{0B}', '\U{0C}', '\r', '\U{1C}', '\U{1D}', '\U{1E}', '\U{1F}', ' ', '\U{85}', '\U{A0}', '\U{1680}',
     '\U{2000}', '\U{2001}', '\U{2002}', '\U{2003}', '\U{2004}', '\U{2005}', '\U{2006}', '\U{2007}', '\U{2008}',
     '\U{2009}', '\U{200A}', '\U{2028}', '\U{2029}', '\U{202F}', '\U{205F}', '\U{3000}'}

  lemma SpacesAre(c: char)
    ensures IsSpace(c) <==> c in SPACES
    ensures IsLineBreak(c) <==>
      c in {'\n', '\U{0B}', '\U{0C}', '\r', '\U{1C}', '\U{1D}', '\U{1E}', '\U{85}', '\U{2028}', '\U{2029}'}
  {
  }

  /** Stripping removes white space at both ends, and all of it. */
  lemma TrimIsTheMiddle(s: string) returns (before: string, after: string)
    ensures s == before + Trim(s) + after && IsBlank(before) && IsBlank(after) && Trimmed(Trim(s))
  {
    var d := TrimStartDrops(s);
    var rest := s[d..];
    var n := TrimEndKeeps(rest);
    before, after := s[..d], rest[n..];
    TrimTrims(s);
    assert rest == Trim(s) + after;
    assert s == before + rest == before + (Trim(s) + after) == (before + Trim(s)) + after;
  }

  lemma HttpsIs(s: string)
    ensures IsHttps(s) <==> exists rest :: s == "https://" + rest
  {
    if IsHttps(s) {
      assert s == "https://" + s[8..];
    }
  }

  /** The slashes at the end are removed, and nothing else. */
  lemma {:induction false} SlashesAreStripped(s: string) returns (slashes: string)
    ensures s == StripSlashes(s) + slashes && forall i :: 0 <= i < |slashes| ==> slashes[i] == '/'
    ensures StripSlashes(s) != "" ==> StripSlashes(s)[|StripSlashes(s)| - 1] != '/'
    decreases |s|
  {
    if s == "" || s[|s| - 1] != '/' {
      slashes := "";
    } else {
      var fewer := SlashesAreStripped(s[..|s| - 1]);
      slashes := fewer + "/";
      assert s == s[..|s| - 1] + "/";
    }
  }
}
