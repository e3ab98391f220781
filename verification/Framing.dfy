/** The byte strings that are fed to the message authentication code, and when they are unambiguous. */
module Framing {
  import opened Decimals
  import opened Lists
  import opened MachineInts

  type bytes = seq<byte>

  // ---------- Fixed-width numbers ----------

  /** The `k` big-endian bytes of `n`. */
  function BigEndian(n: nat, k: nat): (b: bytes)
    ensures |b| == k
  {
    if k == 0 then [] else BigEndian(n / 256, k - 1) + [n % 256]
  }

  function Pow256(k: nat): (p: nat)
    ensures p > 0
  {
    if k == 0 then 1 else 256 * Pow256(k - 1)
  }

  lemma {:induction false} BigEndianIsInjective(m: nat, n: nat, k: nat)
    requires m < Pow256(k) && n < Pow256(k) && BigEndian(m, k) == BigEndian(n, k)
    ensures m == n
  {
    if k == 0 {
    } else {
      var a, b := BigEndian(m, k), BigEndian(n, k);
      assert a[..k - 1] == BigEndian(m / 256, k - 1) && b[..k - 1] == BigEndian(n / 256, k - 1);
      assert a[k - 1] == m % 256 && b[k - 1] == n % 256;
      BigEndianIsInjective(m / 256, n / 256, k - 1);
    }
  }

  lemma Widths()
    ensures Pow256(4) == U32_MAX + 1 && Pow256(8) == U64_MAX + 1
  {
    assert Pow256(1) == 256 && Pow256(2) == 0x1_0000 && Pow256(3) == 0x100_0000;
    assert Pow256(4) == 0x1_0000_0000 && Pow256(5) == 0x100_0000_0000;
    assert Pow256(6) == 0x1_0000_0000_0000 && Pow256(7) == 0x100_0000_0000_0000;
  }

  // ---------- Length-prefixed fields ----------

  /** One field behind its length in eight big-endian bytes. */
  function Frame(field: bytes): bytes {
    BigEndian(|field|, 8) + field
  }

  function Frames(fields: seq<bytes>): seq<bytes> {
    seq(|fields|, i requires 0 <= i < |fields| => Frame(fields[i]))
  }

  function Framed(fields: seq<bytes>): bytes {
    Flatten(Frames(fields))
  }

  ghost predicate Fit(fields: seq<bytes>) {
    forall i :: 0 <= i < |fields| ==> |fields[i]| <= U64_MAX
  }

  lemma FrameIsPrefixFree(x: bytes, y: bytes, restX: bytes, restY: bytes)
    requires |x| <= U64_MAX && |y| <= U64_MAX && Frame(x) + restX == Frame(y) + restY
    ensures x == y && restX == restY
  {
    Widths();
    var m := Frame(x) + restX;
    assert m[..8] == BigEndian(|x|, 8) && m[..8] == BigEndian(|y|, 8);
    BigEndianIsInjective(|x|, |y|, 8);
    assert x == m[8..8 + |x|] && y == m[8..8 + |x|];
    assert restX == m[8 + |x|..] && restY == m[8 + |x|..];
  }

  lemma FramedSnoc(fields: seq<bytes>, x: bytes)
    ensures Framed(fields + [x]) == Framed(fields) + Frame(x)
  {
    assert Frames(fields + [x]) == Frames(fields) + [Frame(x)];
    FlattenSnoc(Frames(fields), Frame(x));
  }

  lemma FramedFromTheLeft(x: bytes, fields: seq<bytes>)
    ensures Framed([x] + fields) == Frame(x) + Framed(fields)
  {
    assert Frames([x] + fields) == [Frame(x)] + Frames(fields);
    FlattenCons(Frame(x), Frames(fields));
  }

  lemma FirstFrame(fields: seq<bytes>, rest: bytes) returns (tail: bytes)
    requires fields != []
    ensures tail == Framed(fields[1..]) + rest
    ensures Framed(fields) + rest == Frame(fields[0]) + tail
  {
    FramedFromTheLeft(fields[0], fields[1..]);
    assert fields == [fields[0]] + fields[1..];
    tail := Framed(fields[1..]) + rest;
  }

  /** As many fields, framed one after the other, followed by anything, determine each field. */
  lemma {:induction false} FramedIsInjective(xs: seq<bytes>, ys: seq<bytes>, restX: bytes, restY: bytes)
    requires |xs| == |ys| && Fit(xs) && Fit(ys) && Framed(xs) + restX == Framed(ys) + restY
    ensures xs == ys && restX == restY
  {
    if xs == [] {
      assert restX == Framed(xs) + restX && restY == Framed(ys) + restY;
    } else {
      var tailX := FirstFrame(xs, restX);
      var tailY := FirstFrame(ys, restY);
      FrameIsPrefixFree(xs[0], ys[0], tailX, tailY);
      FramedIsInjective(xs[1..], ys[1..], restX, restY);
      assert xs == [xs[0]] + xs[1..] && ys == [ys[0]] + ys[1..];
    }
  }

  // ---------- The messages ----------

  function Ascii(s: string): bytes
    requires forall i :: 0 <= i < |s| ==> s[i] < 128 as char
  {
    seq(|s|, i requires 0 <= i < |s| => s[i] as nat)
  }

  /** What is fed to the code that derives a federated user id. */
  function FederatedMessage(tenant: bytes, issuer: bytes, sub: bytes): bytes {
    Ascii("fed-uid:v1") + Framed([tenant, issuer, sub])
  }

  /** What is fed to the code that derives a suppression digest. */
  function SuppressionMessage(fields: seq<bytes>, normalizationVersion: u32): bytes {
    Ascii("governance-suppression:v1\0") + Framed(fields) + BigEndian(normalizationVersion, 4)
  }

  method BuildSuppressionMessage(tenant: bytes, targetClass: bytes, aliasKind: bytes, value: bytes,
                                 normalizationVersion: u32)
    returns (message: bytes)
    requires Fit([tenant, targetClass, aliasKind, value])
    ensures message == SuppressionMessage([tenant, targetClass, aliasKind, value], normalizationVersion)
  {
    var fields := [tenant, targetClass, aliasKind, value];
    message := Ascii("governance-suppression:v1\0");
    ghost var prefix := message;
    for i := 0 to |fields|
      invariant message == prefix + Framed(fields[..i])
    {
      FramedSnoc(fields[..i], fields[i]);
      assert fields[..i + 1] == fields[..i] + [fields[i]];
      message := message + BigEndian(|fields[i]|, 8);
      message := message + fields[i];
    }
    assert fields[..|fields|] == fields;
    message := message + BigEndian(normalizationVersion, 4);
  }

  lemma FederatedMessageIsInjective(t1: bytes, i1: bytes, s1: bytes, t2: bytes, i2: bytes, s2: bytes)
    requires Fit([t1, i1, s1]) && Fit([t2, i2, s2])
    requires FederatedMessage(t1, i1, s1) == FederatedMessage(t2, i2, s2)
    ensures t1 == t2 && i1 == i2 && s1 == s2
  {
    var xs, ys := [t1, i1, s1], [t2, i2, s2];
    var p := |Ascii("fed-uid:v1")|;
    assert Framed(xs) == FederatedMessage(t1, i1, s1)[p..] && Framed(ys) == FederatedMessage(t2, i2, s2)[p..];
    assert Framed(xs) + [] == Framed(ys) + [];
    FramedIsInjective(xs, ys, [], []);
    assert xs[0] == ys[0] && xs[1] == ys[1] && xs[2] == ys[2];
  }

  lemma SuppressionMessageIsInjective(xs: seq<bytes>, v: u32, ys: seq<bytes>, w: u32)
    requires |xs| == |ys| == 4 && Fit(xs) && Fit(ys)
    requires SuppressionMessage(xs, v) == SuppressionMessage(ys, w)
    ensures xs == ys && v == w
  {
    var p := |Ascii("governance-suppression:v1\0")|;
    assert Framed(xs) + BigEndian(v, 4) == SuppressionMessage(xs, v)[p..];
    assert Framed(ys) + BigEndian(w, 4) == SuppressionMessage(ys, w)[p..];
    FramedIsInjective(xs, ys, BigEndian(v, 4), BigEndian(w, 4));
    Widths();
    BigEndianIsInjective(v, w, 4);
  }

  /** With a code that has no collisions, equal derived ids mean equal identities. */
  lemma FederatedIdsAreDistinct(mac: bytes -> bytes, t1: bytes, i1: bytes, s1: bytes, t2: bytes, i2: bytes, s2: bytes)
    requires forall m, n :: mac(m) == mac(n) ==> m == n
    requires Fit([t1, i1, s1]) && Fit([t2, i2, s2])
    ensures mac(FederatedMessage(t1, i1, s1)) == mac(FederatedMessage(t2, i2, s2)) <==>
      t1 == t2 && i1 == i2 && s1 == s2
  {
    if mac(FederatedMessage(t1, i1, s1)) == mac(FederatedMessage(t2, i2, s2)) {
      FederatedMessageIsInjective(t1, i1, s1, t2, i2, s2);
    }
  }

  // ---------- The colon-joined magic-link message ----------

  datatype MagicLink = MagicLink(linkId: string, sessionNonce: string, expiresAt: i64)

  function TagMessage(link: MagicLink): string {
    link.linkId + ":" + link.sessionNonce + ":" + Signed(link.expiresAt)
  }

  lemma CutAtFirstColon(a: string, x: string, b: string, y: string)
    requires ':' !in a && ':' !in b && a + ":" + x == b + ":" + y
    ensures a == b && x == y
  {
    var s := a + ":" + x;
    assert s[|a|] == ':' && s[|b|] == ':';
    assert forall k :: 0 <= k < |a| ==> s[k] == a[k];
    assert forall k :: 0 <= k < |b| ==> s[k] == b[k];
    assert |a| == |b|;
    assert a == s[..|a|] && b == s[..|a|] && x == s[|a| + 1..] && y == s[|a| + 1..];
  }

  lemma CutAtLastColon(a: string, x: string, b: string, y: string)
    requires ':' !in x && ':' !in y && a + ":" + x == b + ":" + y
    ensures a == b && x == y
  {
    var s := a + ":" + x;
    assert s[|a|] == ':' && s[|b|] == ':';
    assert forall k :: |a| < k < |s| ==> s[k] == x[k - |a| - 1];
    assert forall k :: |b| < k < |s| ==> s[k] == y[k - |b| - 1];
    assert |a| == |b|;
    assert a == s[..|a|] && b == s[..|a|] && x == s[|a| + 1..] && y == s[|a| + 1..];
  }

  lemma SameMessageParts(l1: MagicLink, l2: MagicLink)
    requires TagMessage(l1) == TagMessage(l2)
    ensures l1.expiresAt == l2.expiresAt
    ensures l1.linkId + ":" + l1.sessionNonce == l2.linkId + ":" + l2.sessionNonce
  {
    SignedHasNoColon(l1.expiresAt);
    SignedHasNoColon(l2.expiresAt);
    CutAtLastColon(l1.linkId + ":" + l1.sessionNonce, Signed(l1.expiresAt),
                   l2.linkId + ":" + l2.sessionNonce, Signed(l2.expiresAt));
    SignedIsInjective(l1.expiresAt, l2.expiresAt);
  }

  /** Among links whose ids hold no colon the message determines the link. */
  lemma TagMessageIsInjective(l1: MagicLink, l2: MagicLink)
    requires ':' !in l1.linkId && ':' !in l2.linkId && TagMessage(l1) == TagMessage(l2)
    ensures l1 == l2
  {
    SameMessageParts(l1, l2);
    CutAtFirstColon(l1.linkId, l1.sessionNonce, l2.linkId, l2.sessionNonce);
  }

  /** Among all links, exactly those with a colon in the id or in the nonce share their message
      with a different link. */
  lemma TagMessageIsSharedIffColon(link: MagicLink)
    ensures (exists other :: other != link && TagMessage(other) == TagMessage(link)) <==>
      ':' in link.linkId || ':' in link.sessionNonce
  {
    if ':' in link.linkId {
      var p, q := SplitAtColon(link.linkId);
      ColonMoves(p, q, link.sessionNonce, link.expiresAt);
      assert MagicLink(p, q + ":" + link.sessionNonce, link.expiresAt) != link;
    } else if ':' in link.sessionNonce {
      var p, q := SplitAtColon(link.sessionNonce);
      ColonMoves(link.linkId, p, q, link.expiresAt);
      assert MagicLink(link.linkId + ":" + p, q, link.expiresAt) != link;
    } else {
      forall other | TagMessage(other) == TagMessage(link)
        ensures other == link
      {
        SameMessageParts(other, link);
        OneColon(link.linkId, link.sessionNonce, other.linkId, other.sessionNonce);
      }
    }
  }

  lemma SplitAtColon(s: string) returns (p: string, q: string)
    requires ':' in s
    ensures s == p + ":" + q
  {
    var k :| 0 <= k < |s| && s[k] == ':';
    p, q := s[..k], s[k + 1..];
  }

  /** The middle part belongs to the id or to the nonce, whichever one likes. */
  lemma ColonMoves(p: string, q: string, r: string, expiresAt: i64)
    ensures TagMessage(MagicLink(p, q + ":" + r, expiresAt)) == TagMessage(MagicLink(p + ":" + q, r, expiresAt))
  {
    assert p + ":" + (q + ":" + r) == (p + ":" + q) + ":" + r;
  }

  lemma TwoLinksOneMessage(expiresAt: i64)
    ensures var l1, l2 := MagicLink("a:b", "c", expiresAt), MagicLink("a", "b:c", expiresAt);
      l1 != l2 && TagMessage(l1) == TagMessage(l2)
  {
    ColonMoves("a", "b", "c", expiresAt);
    assert "a" + ":" + "b" == "a:b" && "b" + ":" + "c" == "b:c";
    assert MagicLink("a:b", "c", expiresAt).linkId != "a";
  }

  lemma OneColon(a: string, x: string, b: string, y: string)
    requires ':' !in a && ':' !in x && a + ":" + x == b + ":" + y
    ensures a == b && x == y
  {
    var s := a + ":" + x;
    assert forall k :: 0 <= k < |a| ==> s[k] == a[k];
    assert forall k :: |a| < k < |s| ==> s[k] == x[k - |a| - 1];
    assert s[|b|] == ':';
    assert |a| == |b|;
    assert a == s[..|a|] && b == s[..|a|] && x == s[|a| + 1..] && y == s[|a| + 1..];
  }

  // ---------- Where everything stands ----------

  lemma PowersMultiply(k: nat)
    ensures Pow256(k + 1) == 256 * Pow256(k)
  {
  }

  lemma DivideTwice(n: nat, p: nat)
    requires p > 0
    ensures (n / 256) / p == n / (256 * p)
  {
    var q, r := n / 256, n % 256;
    var q', r' := q / p, q % p;
    assert n == 256 * (p * q' + r') + r == (256 * p) * q' + (256 * r' + r);
    assert 256 * r' + r < 256 * p;
    DivModIs(n, 256 * p, q', 256 * r' + r);
  }

  /** The byte at `i` counts the multiples of 256 to the power of the bytes after it. */
  lemma {:induction false} BigEndianDigit(n: nat, k: nat, i: nat)
    requires i < k
    ensures BigEndian(n, k)[i] == n / Pow256(k - 1 - i) % 256
  {
    if i == k - 1 {
    } else {
      BigEndianDigit(n / 256, k - 1, i);
      PowersMultiply(k - 2 - i);
      DivideTwice(n, Pow256(k - 2 - i));
    }
  }

  /** Eight bytes of length, the highest first, and then the field. */
  lemma FrameIs(field: bytes)
    ensures |Frame(field)| == 8 + |field| && Frame(field)[8..] == field
    ensures forall i :: 0 <= i < 8 ==> Frame(field)[i] == |field| / Pow256(7 - i) % 256
  {
    forall i | 0 <= i < 8 ensures Frame(field)[i] == |field| / Pow256(7 - i) % 256 {
      BigEndianDigit(|field|, 8, i);
    }
  }

  lemma ThreeFrames(a: bytes, b: bytes, c: bytes)
    ensures Framed([a, b, c]) == Frame(a) + Frame(b) + Frame(c)
  {
    FramedSnoc([], a);
    FramedSnoc([a], b);
    FramedSnoc([a, b], c);
    assert [] + [a] == [a] && [a] + [b] == [a, b] && [a, b] + [c] == [a, b, c];
    assert Framed([]) + Frame(a) == Frame(a);
  }

  lemma FourFrames(a: bytes, b: bytes, c: bytes, d: bytes)
    ensures Framed([a, b, c, d]) == Frame(a) + Frame(b) + Frame(c) + Frame(d)
  {
    ThreeFrames(a, b, c);
    FramedSnoc([a, b, c], d);
    assert [a, b, c] + [d] == [a, b, c, d];
  }

  /** The message is its tag and the three fields, in this order, each behind its length. */
  lemma FederatedMessageIs(tenant: bytes, issuer: bytes, sub: bytes)
    ensures FederatedMessage(tenant, issuer, sub) ==
      [102, 101, 100, 45, 117, 105, 100, 58, 118, 49] + (Frame(tenant) + Frame(issuer) + Frame(sub))
  {
    ThreeFrames(tenant, issuer, sub);
    assert Ascii("fed-uid:v1") == [102, 101, 100, 45, 117, 105, 100, 58, 118, 49];
  }

  /** The message is its tag and a zero byte, the four fields, in this order, each behind its length,
      and the version in four bytes. */
  lemma SuppressionMessageIs(tenant: bytes, targetClass: bytes, aliasKind: bytes, value: bytes, version: u32)
    ensures SuppressionMessage([tenant, targetClass, aliasKind, value], version) ==
      Ascii("governance-suppression:v1\0") + (Frame(tenant) + Frame(targetClass) + Frame(aliasKind) + Frame(value)) + BigEndian(version, 4)
    ensures Ascii("governance-suppression:v1\0") ==
      [103, 111, 118, 101, 114, 110, 97, 110, 99, 101, 45, 115, 117, 112, 112, 114, 101, 115, 115, 105, 111, 110, 58, 118, 49, 0]
  {
    FourFrames(tenant, targetClass, aliasKind, value);
  }

  /** The id comes first, then the nonce, then the expiry in decimal, with colons between. */
  lemma TagMessageIs(link: MagicLink)
    ensures var m, i, n := TagMessage(link), |link.linkId|, |link.sessionNonce|;
      && |m| >= i + n + 2 && m[..i] == link.linkId && m[i] == ':' && m[i + 1..i + 1 + n] == link.sessionNonce && m[i + 1 + n] == ':'
      && m[i + n + 2..] == Signed(link.expiresAt)
  {
  }
}
