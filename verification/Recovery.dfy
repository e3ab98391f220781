/** The Base32 text of a recovery secret, read as bits (section 6 of RFC 4648, without padding). */
module Base32 {
  import opened Lists
  import opened MachineInts
  import opened Wrappers

  const ALPHABET: string := "ABCDEFGHIJKLMNOPQRSTUVWXYZ234567"
  const U32: nat := 0x1_0000_0000

  // ---------- Bit strings, most significant bit first ----------

  predicate IsBits(bits: seq<nat>) {
    forall i :: 0 <= i < |bits| ==> bits[i] < 2
  }

  /** The `n` low bits of `v`. */
  function BitsOf(v: nat, n: nat): (bits: seq<nat>)
    ensures |bits| == n && IsBits(bits)
  {
    if n == 0 then [] else BitsOf(v / 2, n - 1) + [v % 2]
  }

  /** The big-endian bit string of a byte string. */
  function Bits(bytes: seq<byte>): (bits: seq<nat>)
    ensures |bits| == 8 * |bytes| && IsBits(bits)
  {
    if bytes == [] then [] else Bits(bytes[..|bytes| - 1]) + BitsOf(bytes[|bytes| - 1], 8)
  }

  function Value(bits: seq<nat>): nat {
    if bits == [] then 0 else 2 * Value(bits[..|bits| - 1]) + bits[|bits| - 1]
  }

  function Pow2(k: nat): (p: nat)
    ensures p > 0
  {
    if k == 0 then 1 else 2 * Pow2(k - 1)
  }

  lemma {:induction false} ValueOfConcat(p: seq<nat>, q: seq<nat>)
    ensures Value(p + q) == Value(p) * Pow2(|q|) + Value(q)
  {
    if q == [] {
      assert p + q == p;
    } else {
      var q' := q[..|q| - 1];
      ValueOfConcat(p, q');
      assert (p + q)[..|p + q| - 1] == p + q' && (p + q)[|p + q| - 1] == q[|q| - 1];
      Doubled(Value(p), Pow2(|q'|));
    }
  }

  lemma Doubled(v: nat, p: nat)
    ensures v * (2 * p) == 2 * (v * p)
  {
  }

  lemma {:induction false} ValueIsBounded(bits: seq<nat>)
    requires IsBits(bits)
    ensures Value(bits) < Pow2(|bits|)
  {
    if bits == [] {
    } else {
      ValueIsBounded(bits[..|bits| - 1]);
    }
  }

  // ---------- The encoding ----------

  function EncodedLen(n: nat): nat {
    (8 * n + 4) / 5
  }

  /** The bit string, extended with zeros to whole groups of five. */
  function Padded(bytes: seq<byte>): (bits: seq<nat>)
    ensures |bits| == 5 * EncodedLen(|bytes|) && IsBits(bits)
  {
    Bits(bytes) + seq(5 * EncodedLen(|bytes|) - 8 * |bytes|, _ => 0)
  }

  function Group(bytes: seq<byte>, k: nat): (v: nat)
    requires k < EncodedLen(|bytes|)
    ensures v < 32
  {
    var five := Padded(bytes)[5 * k..5 * k + 5];
    ValueIsBounded(five);
    Value(five)
  }

  function Encoded(bytes: seq<byte>): (text: string)
    ensures |text| == EncodedLen(|bytes|)
  {
    seq(EncodedLen(|bytes|), k requires 0 <= k < EncodedLen(|bytes|) => ALPHABET[Group(bytes, k)])
  }

  // ---------- The bit-buffer loop ----------

  /** The buffer keeps the bits not yet written, whatever else is left above them. */
  ghost predicate Holds(buffer: nat, pending: seq<nat>) {
    buffer % Pow2(|pending|) == Value(pending)
  }

  method Base32Encode(bytes: seq<byte>) returns (out: string)
    ensures out == Encoded(bytes)
  {
    out := "";
    var buffer: nat, bits: nat := 0, 0;
    ghost var pending: seq<nat> := [];
    for i := 0 to |bytes|
      invariant bits < 5 && Written(bytes, out, bits, 8 * i, pending, buffer)
    {
      pending := ReadByte(bytes, i, out, bits, pending, buffer);
      buffer := (buffer * 256) % U32 + bytes[i];
      bits := bits + 8;
      while bits >= 5
        invariant bits <= 12 && Written(bytes, out, bits, 8 * (i + 1), pending, buffer)
      {
        pending := WriteGroup(bytes, out, bits, 8 * (i + 1), pending, buffer);
        bits := bits - 5;
        out := out + [ALPHABET[buffer / Pow2(bits) % 32]];
      }
    }
    if bits > 0 {
      WriteRest(bytes, out, bits, pending, buffer);
      out := out + [ALPHABET[(buffer * Pow2(5 - bits)) % U32 % 32]];
    }
  }

  /** The text written so far, and the bits read since, which the buffer holds. */
  ghost predicate Written(bytes: seq<byte>, out: string, bits: nat, read: nat, pending: seq<nat>, buffer: nat) {
    && out <= Encoded(bytes)
    && read == 5 * |out| + bits <= 8 * |bytes|
    && pending == Padded(bytes)[5 * |out|..read]
    && Holds(buffer, pending)
  }

  lemma ReadByte(bytes: seq<byte>, i: nat, out: string, bits: nat, pending: seq<nat>, buffer: nat)
    returns (pending': seq<nat>)
    requires i < |bytes| && bits < 5 && Written(bytes, out, bits, 8 * i, pending, buffer)
    ensures Written(bytes, out, bits + 8, 8 * (i + 1), pending', (buffer * 256) % U32 + bytes[i])
  {
    pending' := pending + BitsOf(bytes[i], 8);
    ShiftIn(buffer, pending, bytes[i]);
    PendingGrows(bytes, i, 5 * |out|, pending);
  }

  lemma PendingGrows(bytes: seq<byte>, i: nat, start: nat, pending: seq<nat>)
    requires i < |bytes| && start <= 8 * i && pending == Padded(bytes)[start..8 * i]
    ensures pending + BitsOf(bytes[i], 8) == Padded(bytes)[start..8 * i + 8]
  {
    BitsOfByte(bytes, i);
    SlicesJoin(Padded(bytes), start, 8 * i, 8 * i + 8);
  }

  lemma WriteGroup(bytes: seq<byte>, out: string, bits: nat, read: nat, pending: seq<nat>, buffer: nat)
    returns (pending': seq<nat>)
    requires 5 <= bits <= 12 && Written(bytes, out, bits, read, pending, buffer)
    ensures Written(bytes, out + [ALPHABET[buffer / Pow2(bits - 5) % 32]], bits - 5, read, pending', buffer)
  {
    ShiftOut(buffer, pending);
    pending' := pending[5..];
    TakeFive(Padded(bytes), 5 * |out|, read, pending);
    LetterIs(bytes, out, pending[..5]);
    PrefixGrows(out, Encoded(bytes));
  }

  lemma TakeFive(all: seq<nat>, start: nat, read: nat, pending: seq<nat>)
    requires start + 5 <= read <= |all| && pending == all[start..read]
    ensures pending[..5] == all[start..start + 5] && pending[5..] == all[start + 5..read]
  {
  }

  lemma LetterIs(bytes: seq<byte>, out: string, five: seq<nat>)
    requires |out| < EncodedLen(|bytes|) && five == Padded(bytes)[5 * |out|..5 * |out| + 5]
    ensures Value(five) < 32 && Encoded(bytes)[|out|] == ALPHABET[Value(five)]
  {
    assert Group(bytes, |out|) == Value(five);
  }

  lemma WriteRest(bytes: seq<byte>, out: string, bits: nat, pending: seq<nat>, buffer: nat)
    requires 0 < bits < 5 && Written(bytes, out, bits, 8 * |bytes|, pending, buffer)
    ensures Encoded(bytes) == out + [ALPHABET[(buffer * Pow2(5 - bits)) % U32 % 32]]
  {
    var zeros := seq(5 - bits, _ => 0);
    Flush(buffer, pending);
    RestIsPadded(bytes, 5 * |out|, pending, zeros);
    LetterIs(bytes, out, pending + zeros);
    PrefixGrows(out, Encoded(bytes));
  }

  lemma RestIsPadded(bytes: seq<byte>, start: nat, pending: seq<nat>, zeros: seq<nat>)
    requires start < 8 * |bytes| && start + 5 == 5 * EncodedLen(|bytes|)
    requires pending == Padded(bytes)[start..8 * |bytes|] && zeros == seq(start + 5 - 8 * |bytes|, _ => 0)
    ensures pending + zeros == Padded(bytes)[start..start + 5]
  {
    assert Padded(bytes)[8 * |bytes|..start + 5] == zeros;
    SlicesJoin(Padded(bytes), start, 8 * |bytes|, start + 5);
  }

  /** Shifting a byte in keeps the pending bits, although the shift drops the top of the buffer. */
  lemma ShiftIn(buffer: nat, pending: seq<nat>, b: byte)
    requires |pending| < 5 && Holds(buffer, pending)
    ensures Holds((buffer * 256) % U32 + b, pending + BitsOf(b, 8))
  {
    var p := Pow2(|pending|);
    Powers();
    assert p in {1, 2, 4, 8, 16};
    ShiftInWord(buffer, p, 0x100_0000 / p, b);
    ValueOfConcat(pending, BitsOf(b, 8));
    ValueInvertsBitsOf(b, 8);
    assert Pow2(|pending| + 8) == 256 * p;
  }

  lemma ShiftInWord(buffer: nat, p: nat, k: nat, b: byte)
    requires p in {1, 2, 4, 8, 16} && p * k == 0x100_0000
    ensures ((buffer * 256) % U32 + b) % (256 * p) == (buffer % p) * 256 + b
  {
    var y, m := buffer * 256, 256 * p;
    var q, r := buffer / p, buffer % p;
    assert y == m * q + r * 256;
    DivModIs(y, m, q, r * 256);
    LowBits(y, m, k);
    DivModIs(y % U32 + b, m, (y % U32) / m, r * 256 + b);
  }

  /** Reducing to 32 bits leaves the low bits alone. */
  lemma LowBits(x: nat, m: nat, k: nat)
    requires m * k == U32
    ensures m > 0 && (x % U32) % m == x % m
  {
    var t, d := x / U32, x / m;
    assert U32 * t == m * (k * t);
    assert x % U32 == m * (d - k * t) + x % m;
    DivModIs(x % U32, m, d - k * t, x % m);
  }

  lemma {:induction false} ValueInvertsBitsOf(v: nat, n: nat)
    requires v < Pow2(n)
    ensures Value(BitsOf(v, n)) == v
  {
    if n == 0 {
    } else {
      ValueInvertsBitsOf(v / 2, n - 1);
      assert BitsOf(v, n)[..n - 1] == BitsOf(v / 2, n - 1);
    }
  }

  lemma {:induction false} BitsOfInvertsValue(bits: seq<nat>)
    requires IsBits(bits)
    ensures BitsOf(Value(bits), |bits|) == bits
  {
    if bits == [] {
    } else {
      BitsOfInvertsValue(bits[..|bits| - 1]);
      assert Value(bits) / 2 == Value(bits[..|bits| - 1]);
    }
  }

  lemma Powers()
    ensures Pow2(0) == 1 && Pow2(1) == 2 && Pow2(2) == 4 && Pow2(3) == 8 && Pow2(4) == 16 && Pow2(5) == 32
    ensures Pow2(6) == 64 && Pow2(7) == 128 && Pow2(8) == 256 && Pow2(9) == 512 && Pow2(10) == 1024
    ensures Pow2(11) == 2048 && Pow2(12) == 4096
  {
  }

  /** The five bits written are the oldest pending ones. */
  lemma ShiftOut(buffer: nat, pending: seq<nat>)
    requires 5 <= |pending| <= 12 && IsBits(pending) && Holds(buffer, pending)
    ensures buffer / Pow2(|pending| - 5) % 32 == Value(pending[..5])
    ensures Holds(buffer, pending[5..])
  {
    var k, five, rest := |pending| - 5, pending[..5], pending[5..];
    assert pending == five + rest;
    ValueOfConcat(five, rest);
    ValueIsBounded(five);
    ValueIsBounded(rest);
    Powers();
    SplitWord(buffer, Pow2(k), Value(five), Value(rest));
  }

  lemma SplitWord(buffer: nat, p: nat, high: nat, low: nat)
    requires high < 32 && low < p && buffer % (32 * p) == high * p + low
    ensures buffer / p % 32 == high && buffer % p == low
  {
    var q := buffer / (32 * p);
    assert buffer == p * (32 * q + high) + low;
    DivModIs(buffer, p, 32 * q + high, low);
  }

  lemma Flush(buffer: nat, pending: seq<nat>)
    requires 0 < |pending| < 5 && IsBits(pending) && Holds(buffer, pending)
    ensures (buffer * Pow2(5 - |pending|)) % U32 % 32 == Value(pending + seq(5 - |pending|, _ => 0))
  {
    var n := |pending|;
    ValueOfConcat(pending, seq(5 - n, _ => 0));
    ZeroValue(5 - n);
    Powers();
    ShiftUp(buffer, Pow2(n), Pow2(5 - n));
  }

  lemma ShiftUp(buffer: nat, p: nat, c: nat)
    requires p in {2, 4, 8, 16} && p * c == 32
    ensures (buffer * c) % U32 % 32 == (buffer % p) * c
  {
    var q, r := buffer / p, buffer % p;
    LowBits(buffer * c, 32, 0x800_0000);
    assert buffer * c == 32 * q + r * c;
    DivModIs(buffer * c, 32, q, r * c);
  }

  lemma {:induction false} ZeroValue(n: nat)
    ensures Value(seq(n, _ => 0)) == 0
  {
    if n == 0 {
    } else {
      ZeroValue(n - 1);
      assert seq(n, _ => 0)[..n - 1] == seq(n - 1, _ => 0);
    }
  }

  lemma {:induction false} BitsOfByte(bytes: seq<byte>, i: nat)
    requires i < |bytes|
    ensures Padded(bytes)[8 * i..8 * i + 8] == BitsOf(bytes[i], 8)
  {
    BitsAt(bytes, i);
    assert Padded(bytes)[8 * i..8 * i + 8] == Bits(bytes)[8 * i..8 * i + 8];
  }

  lemma {:induction false} BitsAt(bytes: seq<byte>, i: nat)
    requires i < |bytes|
    ensures Bits(bytes)[8 * i..8 * i + 8] == BitsOf(bytes[i], 8)
  {
    var n := |bytes| - 1;
    if i == n {
    } else {
      BitsAt(bytes[..n], i);
      assert Bits(bytes)[8 * i..8 * i + 8] == Bits(bytes[..n])[8 * i..8 * i + 8];
    }
  }

  // ---------- Decoding ----------

  function Digit(c: char): Option<nat> {
    if 'A' <= c <= 'Z' then Some(c as nat - 'A' as nat)
    else if '2' <= c <= '7' then Some(c as nat - '2' as nat + 26)
    else None
  }

  lemma DigitOfLetter(v: nat)
    requires v < 32
    ensures Digit(ALPHABET[v]) == Some(v)
  {
  }

  function TextBits(text: string): Option<seq<nat>> {
    if text == "" then Some([])
    else
      match (TextBits(text[..|text| - 1]), Digit(text[|text| - 1]))
      case (Some(bits), Some(v)) => Some(bits + BitsOf(v, 5))
      case _ => None
  }

  function BytesOf(bits: seq<nat>): seq<nat> {
    seq(|bits| / 8, k requires 0 <= k < |bits| / 8 => Value(bits[8 * k..8 * k + 8]))
  }

  /** Whole bytes of the bit string; the zeros added by the encoder never fill one. */
  function Decode(text: string): Option<seq<nat>> {
    match TextBits(text)
    case Some(bits) => Some(BytesOf(bits))
    case None => None
  }

  ghost predicate Spells(text: string, bits: seq<nat>) {
    && |bits| == 5 * |text|
    && forall k :: 0 <= k < |text| ==> Digit(text[k]) == Some(Value(bits[5 * k..5 * k + 5]))
  }

  lemma {:induction false} SpelledBits(text: string, bits: seq<nat>)
    requires IsBits(bits) && Spells(text, bits)
    ensures TextBits(text) == Some(bits)
    decreases |text|
  {
    if text == "" {
    } else {
      var front, c, most, five := LastLetter(text, bits);
      SpelledBits(front, most);
      TextBitsGrow(front, c, most, five);
    }
  }

  lemma TextBitsGrow(text: string, c: char, bits: seq<nat>, five: seq<nat>)
    requires TextBits(text) == Some(bits) && Digit(c).Some? && BitsOf(Digit(c).value, 5) == five
    ensures TextBits(text + [c]) == Some(bits + five)
  {
    assert (text + [c])[..|text|] == text;
  }

  /** The last letter spells the last five bits, and the letters before it the bits before them. */
  lemma LastLetter(text: string, bits: seq<nat>) returns (front: string, c: char, most: seq<nat>, five: seq<nat>)
    requires text != "" && IsBits(bits) && Spells(text, bits)
    ensures text == front + [c] && bits == most + five
    ensures IsBits(most) && Spells(front, most)
    ensures Digit(c).Some? && BitsOf(Digit(c).value, 5) == five
  {
    var n := |text| - 1;
    front, c, most, five := text[..n], text[n], bits[..5 * n], bits[5 * n..5 * n + 5];
    SplitLast(text);
    SlicesJoin(bits, 0, 5 * n, 5 * n + 5);
    assert bits[0..5 * n] == most && bits[0..5 * n + 5] == bits;
    FrontIsSpelled(text, bits, n);
    BitsOfInvertsValue(five);
  }

  lemma FrontIsSpelled(text: string, bits: seq<nat>, n: nat)
    requires n < |text| && Spells(text, bits)
    ensures Spells(text[..n], bits[..5 * n])
  {
    var most := bits[..5 * n];
    assert most == bits[0..5 * n];
    forall k | 0 <= k < n
      ensures Digit(text[..n][k]) == Some(Value(most[5 * k..5 * k + 5]))
    {
      SliceOfSlice(bits, 0, 5 * n, 5 * k, 5 * k + 5);
    }
  }

  lemma EncodedSpells(bytes: seq<byte>)
    ensures Spells(Encoded(bytes), Padded(bytes))
  {
    forall k | 0 <= k < EncodedLen(|bytes|)
      ensures Digit(Encoded(bytes)[k]) == Some(Value(Padded(bytes)[5 * k..5 * k + 5]))
    {
      DigitOfLetter(Group(bytes, k));
    }
  }

  lemma BytesOfPadded(bytes: seq<byte>)
    ensures BytesOf(Padded(bytes)) == bytes
  {
    Powers();
    assert |Padded(bytes)| / 8 == |bytes|;
    forall i | 0 <= i < |bytes|
      ensures Value(Padded(bytes)[8 * i..8 * i + 8]) == bytes[i]
    {
      BitsOfByte(bytes, i);
      ValueInvertsBitsOf(bytes[i], 8);
    }
  }

  /** Decoding gives back the bytes, whatever their number. */
  lemma DecodeInvertsEncode(bytes: seq<byte>)
    ensures Decode(Encoded(bytes)) == Some(bytes)
  {
    EncodedSpells(bytes);
    SpelledBits(Encoded(bytes), Padded(bytes));
    BytesOfPadded(bytes);
  }

  lemma EncodedIsInjective(a: seq<byte>, b: seq<byte>)
    requires Encoded(a) == Encoded(b)
    ensures a == b
  {
    DecodeInvertsEncode(a);
    DecodeInvertsEncode(b);
  }

  // ---------- The letters ----------

  lemma {:induction false} BitIs(v: nat, n: nat, i: nat)
    requires i < n
    ensures BitsOf(v, n)[i] == v / Pow2(n - 1 - i) % 2
  {
    if i == n - 1 {
    } else {
      BitIs(v / 2, n - 1, i);
      Halves(v, Pow2(n - 2 - i));
      assert Pow2(n - 1 - i) == 2 * Pow2(n - 2 - i);
    }
  }

  lemma Halves(v: nat, p: nat)
    requires p > 0
    ensures v / 2 / p == v / (2 * p)
  {
    var q, r := v / 2, v % 2;
    var q', r' := q / p, q % p;
    assert v == 2 * (p * q' + r') + r == (2 * p) * q' + (2 * r' + r);
    DivModIs(v, 2 * p, q', 2 * r' + r);
  }

  /** The bit at `i` of the padded bit string: byte after byte, the highest bit first, then zeros. */
  function BitAt(bytes: seq<byte>, i: nat): nat {
    if i < 8 * |bytes| then bytes[i / 8] / Pow2(7 - i % 8) % 2 else 0
  }

  lemma PaddedBit(bytes: seq<byte>, i: nat)
    requires i < |Padded(bytes)|
    ensures Padded(bytes)[i] == BitAt(bytes, i)
  {
    if i < 8 * |bytes| {
      var k, j := i / 8, i % 8;
      BitsOfByte(bytes, k);
      assert Padded(bytes)[i] == Padded(bytes)[8 * k..8 * k + 8][j];
      BitIs(bytes[k], 8, j);
    }
  }

  lemma ValueSnoc(bits: seq<nat>, b: nat)
    ensures Value(bits + [b]) == 2 * Value(bits) + b
  {
    assert (bits + [b])[..|bits|] == bits;
  }

  lemma FiveBits(bits: seq<nat>)
    requires |bits| == 5
    ensures Value(bits) == 16 * bits[0] + 8 * bits[1] + 4 * bits[2] + 2 * bits[3] + bits[4]
  {
    ValueSnoc([], bits[0]);
    ValueSnoc([bits[0]], bits[1]);
    ValueSnoc([bits[0], bits[1]], bits[2]);
    ValueSnoc([bits[0], bits[1], bits[2]], bits[3]);
    ValueSnoc([bits[0], bits[1], bits[2], bits[3]], bits[4]);
    assert [] + [bits[0]] == [bits[0]] && [bits[0]] + [bits[1]] == [bits[0], bits[1]];
    assert [bits[0], bits[1]] + [bits[2]] == [bits[0], bits[1], bits[2]];
    assert [bits[0], bits[1], bits[2]] + [bits[3]] == [bits[0], bits[1], bits[2], bits[3]];
    assert [bits[0], bits[1], bits[2], bits[3]] + [bits[4]] == bits;
  }

  function Letter(v: nat): char
    requires v < 32
  {
    if v < 26 then ('A' as nat + v) as char else ('2' as nat + (v - 26)) as char
  }

  lemma LettersAre(v: nat)
    requires v < 32
    ensures ALPHABET[v] == Letter(v)
  {
  }

  /** Letter by letter: five bits of the byte string at a time, the alphabet first and then the digits
      from 2 to 7. */
  lemma EncodedLetters(bytes: seq<byte>, k: nat)
    requires k < EncodedLen(|bytes|)
    ensures var v := 16 * BitAt(bytes, 5 * k) + 8 * BitAt(bytes, 5 * k + 1) + 4 * BitAt(bytes, 5 * k + 2)
                     + 2 * BitAt(bytes, 5 * k + 3) + BitAt(bytes, 5 * k + 4);
      v < 32 && Encoded(bytes)[k] == Letter(v)
  {
    var five := Padded(bytes)[5 * k..5 * k + 5];
    forall j: nat | j < 5
      ensures five[j] == BitAt(bytes, 5 * k + j)
    {
      PaddedBit(bytes, 5 * k + j);
    }
    FiveBits(five);
    LettersAre(Group(bytes, k));
  }
}

/** Printing and parsing one recovery code. */
module RecoveryCode {
  import opened Base32
  import opened Lists
  import opened MachineInts
  import opened Wrappers

  const VERSION: string := "v1"

  /** The pieces of `splitn(3, '.')`: at most two dots split. */
  function SplitInThree(s: string): seq<string> {
    var i := FirstIndex(s, '.');
    if i == |s| then [s]
    else
      var rest := s[i + 1..];
      var j := FirstIndex(rest, '.');
      if j == |rest| then [s[..i], rest] else [s[..i], rest[..j], rest[j + 1..]]
  }

  function ParseCode(code: string): Option<(string, string)> {
    var pieces := SplitInThree(code);
    if |pieces| < 3 || pieces[0] != VERSION || pieces[1] == "" || pieces[2] == "" then None
    else Some((pieces[1], pieces[2]))
  }

  function FormatCode(lookup: string, secret: seq<byte>): string {
    VERSION + "." + lookup + "." + Encoded(secret)
  }

  lemma DotIsFirst(head: string, tail: string)
    requires '.' !in head
    ensures FirstIndex(head + "." + tail, '.') == |head|
  {
    var s := head + "." + tail;
    assert s[|head|] == '.' && forall k :: 0 <= k < |head| ==> s[k] == head[k];
  }

  lemma PiecesJoin(s: string)
    requires |SplitInThree(s)| == 3
    ensures var p := SplitInThree(s); s == p[0] + "." + p[1] + "." + p[2] && '.' !in p[1]
  {
    var i := FirstIndex(s, '.');
    var rest := s[i + 1..];
    var j := FirstIndex(rest, '.');
    CutAtDot(s, i);
    CutAtDot(rest, j);
    Regroup(s[..i], rest[..j], rest[j + 1..]);
  }

  lemma CutAtDot(s: string, i: nat)
    requires i < |s| && s[i] == '.'
    ensures s == s[..i] + "." + s[i + 1..]
  {
  }

  lemma Regroup(a: string, b: string, c: string)
    ensures a + "." + (b + "." + c) == a + "." + b + "." + c
  {
  }

  /** Parsing succeeds on exactly the texts built from a dot-free, non-empty lookup. */
  lemma ParseIsExact(code: string, lookup: string, secret: string)
    ensures ParseCode(code) == Some((lookup, secret)) <==>
      (lookup != "" && secret != "" && '.' !in lookup && code == "v1." + lookup + "." + secret)
  {
    assert "v1." == VERSION + ".";
    if lookup != "" && secret != "" && '.' !in lookup && code == "v1." + lookup + "." + secret {
      var rest := lookup + "." + secret;
      assert code == VERSION + "." + rest;
      DotIsFirst(VERSION, rest);
      DotIsFirst(lookup, secret);
      assert code[..2] == VERSION && code[3..] == rest;
      assert rest[..|lookup|] == lookup && rest[|lookup| + 1..] == secret;
      assert SplitInThree(code) == [VERSION, lookup, secret];
    }
    if ParseCode(code) == Some((lookup, secret)) {
      var p := SplitInThree(code);
      PiecesJoin(code);
      assert lookup == p[1] && secret == p[2] && p[0] == VERSION;
      assert code == VERSION + "." + lookup + "." + secret;
    }
  }

  /** A printed code parses back to its lookup and Base32 secret exactly when the lookup is
      non-empty and dot-free and the secret is non-empty. */
  lemma FormatThenParse(lookup: string, secret: seq<byte>)
    ensures ParseCode(FormatCode(lookup, secret)) == Some((lookup, Encoded(secret))) <==>
      lookup != "" && '.' !in lookup && secret != []
  {
    ParseIsExact(FormatCode(lookup, secret), lookup, Encoded(secret));
  }

  /** Two usable codes are equal only when lookup and secret bytes are. */
  lemma CodesAreDistinct(l1: string, s1: seq<byte>, l2: string, s2: seq<byte>)
    requires l1 != "" && '.' !in l1 && s1 != [] && l2 != "" && '.' !in l2 && s2 != []
    requires FormatCode(l1, s1) == FormatCode(l2, s2)
    ensures l1 == l2 && s1 == s2
  {
    FormatThenParse(l1, s1);
    FormatThenParse(l2, s2);
    EncodedIsInjective(s1, s2);
  }
}

/** The lockout rule for wrong recovery codes. */
module Lockout {
  import opened MachineInts

  const MAX_ATTEMPTS: nat := 5
  const LOCKOUT_SECS: int := 900

  predicate IsLocked(lockedUntil: i64, now: i64) {
    now < lockedUntil
  }

  function OnFailedAttempt(attempts: u32, now: i64): (u32, i64)
    requires attempts + 1 >= MAX_ATTEMPTS ==> now + LOCKOUT_SECS <= I64_MAX
  {
    var n := if attempts == U32_MAX then U32_MAX else attempts + 1;
    if n >= MAX_ATTEMPTS then (n, now + LOCKOUT_SECS) else (n, 0)
  }

  // ---------- Runs of wrong codes ----------

  datatype Record = Record(attempts: u32, lockedUntil: i64)

  /** The end of a lock that starts at any of the times is a time stamp. */
  ghost predicate InRange(times: seq<i64>) {
    forall i :: 0 <= i < |times| ==> times[i] + LOCKOUT_SECS <= I64_MAX
  }

  /** The times at which a wrong code is evaluated: it is refused unseen while the record is
      locked, and recorded otherwise. The clock may jump either way between attempts. */
  ghost function Evaluated(rec: Record, times: seq<i64>): seq<i64>
    requires InRange(times)
    decreases times
  {
    if times == [] then []
    else if IsLocked(rec.lockedUntil, times[0]) then Evaluated(rec, times[1..])
    else
      var (attempts, lockedUntil) := OnFailedAttempt(rec.attempts, times[0]);
      [times[0]] + Evaluated(Record(attempts, lockedUntil), times[1..])
  }

  /** From the fifth wrong code on the next one waits out the lock. */
  ghost predicate Spaced(attempts: nat, seen: seq<i64>) {
    forall i :: 0 < i < |seen| && attempts + i >= MAX_ATTEMPTS ==> seen[i - 1] + LOCKOUT_SECS <= seen[i]
  }

  lemma {:induction false} EvaluationsAreSpaced(rec: Record, times: seq<i64>)
    requires InRange(times)
    ensures var seen := Evaluated(rec, times);
      Spaced(rec.attempts, seen) && (seen != [] ==> rec.lockedUntil <= seen[0])
    decreases times
  {
    if times == [] {
    } else {
      var tail := times[1..];
      if IsLocked(rec.lockedUntil, times[0]) {
        EvaluationsAreSpaced(rec, tail);
      } else {
        var (attempts, lockedUntil) := OnFailedAttempt(rec.attempts, times[0]);
        EvaluationsAreSpaced(Record(attempts, lockedUntil), tail);
        SpacedPrepend(rec.attempts, attempts, times[0], Evaluated(Record(attempts, lockedUntil), tail));
      }
    }
  }

  lemma SpacedPrepend(attempts: nat, attempts': nat, first: i64, rest: seq<i64>)
    requires Spaced(attempts', rest) && (attempts' == attempts + 1 || attempts' == U32_MAX)
    requires rest != [] && attempts' >= MAX_ATTEMPTS ==> first + LOCKOUT_SECS <= rest[0]
    ensures Spaced(attempts, [first] + rest)
  {
    var seen := [first] + rest;
    forall i | 0 < i < |seen| && attempts + i >= MAX_ATTEMPTS
      ensures seen[i - 1] + LOCKOUT_SECS <= seen[i]
    {
      assert seen[i] == rest[i - 1];
      assert i > 1 ==> seen[i - 1] == rest[i - 2];
    }
  }

  // ---------- Counting evaluations in a span of time ----------

  /** How many of the times lie between `from` and `to`, both included. */
  function CountIn(times: seq<i64>, from: int, to: int): nat {
    if times == [] then 0
    else
      CountIn(times[..|times| - 1], from, to) + if from <= times[|times| - 1] <= to then 1 else 0
  }

  /** From a fresh record, whatever the clock does, any T seconds hold at most 5 + T / 900
      evaluations of wrong codes. */
  lemma ThroughputIsBounded(times: seq<i64>, from: int, T: nat)
    requires InRange(times)
    ensures CountIn(Evaluated(Record(0, 0), times), from, from + T) <= 5 + T / 900
  {
    var seen := Evaluated(Record(0, 0), times);
    EvaluationsAreSpaced(Record(0, 0), times);
    if |seen| <= MAX_ATTEMPTS {
      CountIsLength(seen, from, from + T);
    } else {
      var first, rest := seen[..MAX_ATTEMPTS - 1], seen[MAX_ATTEMPTS - 1..];
      CountConcat(first, rest, from, from + T);
      assert seen == first + rest;
      CountIsLength(first, from, from + T);
      RestIsSpaced(seen, rest);
      CountSpaced(rest, from, from + T);
    }
  }

  lemma RestIsSpaced(seen: seq<i64>, rest: seq<i64>)
    requires |seen| >= MAX_ATTEMPTS && rest == seen[MAX_ATTEMPTS - 1..] && Spaced(0, seen)
    ensures Spaced(MAX_ATTEMPTS, rest)
  {
    forall i | 0 < i < |rest|
      ensures rest[i - 1] + LOCKOUT_SECS <= rest[i]
    {
      assert rest[i] == seen[MAX_ATTEMPTS - 1 + i] && rest[i - 1] == seen[MAX_ATTEMPTS - 1 + i - 1];
    }
  }

  lemma {:induction false} CountIsLength(times: seq<i64>, from: int, to: int)
    ensures CountIn(times, from, to) <= |times|
  {
    if times == [] {
    } else {
      CountIsLength(times[..|times| - 1], from, to);
    }
  }

  lemma {:induction false} CountConcat(a: seq<i64>, b: seq<i64>, from: int, to: int)
    ensures CountIn(a + b, from, to) == CountIn(a, from, to) + CountIn(b, from, to)
  {
    if b == [] {
      assert a + b == a;
    } else {
      CountConcat(a, b[..|b| - 1], from, to);
      assert (a + b)[..|a + b| - 1] == a + b[..|b| - 1];
    }
  }

  /** Times a lock apart: at most one, and one more for each lock that fits. */
  lemma {:induction false} CountSpaced(times: seq<i64>, from: int, to: int)
    requires Spaced(MAX_ATTEMPTS, times)
    ensures CountIn(times, from, to) <= if from <= to then 1 + (to - from) / LOCKOUT_SECS else 0
    decreases |times|
  {
    if times == [] {
    } else {
      var last, most := times[|times| - 1], times[..|times| - 1];
      if from <= last <= to {
        SpacedIsBefore(times, most, last);
        CountUpTo(most, from, to, last - LOCKOUT_SECS);
        CountSpaced(most, from, last - LOCKOUT_SECS);
      } else {
        CountSpaced(most, from, to);
      }
    }
  }

  lemma {:induction false} SpacedIsBefore(times: seq<i64>, most: seq<i64>, last: i64)
    requires times == most + [last] && Spaced(MAX_ATTEMPTS, times)
    ensures Spaced(MAX_ATTEMPTS, most)
    ensures forall i :: 0 <= i < |most| ==> most[i] <= last - LOCKOUT_SECS
    decreases |most|
  {
    assert forall i :: 0 <= i < |most| ==> times[i] == most[i];
    if most == [] {
    } else {
      var n := |most| - 1;
      assert times[n + 1] == last;
      assert most == most[..n] + [most[n]];
      SpacedIsBefore(most, most[..n], most[n]);
    }
  }

  lemma {:induction false} CountUpTo(times: seq<i64>, from: int, to: int, to': int)
    requires to' <= to && forall i :: 0 <= i < |times| ==> times[i] <= to'
    ensures CountIn(times, from, to) == CountIn(times, from, to')
  {
    if times == [] {
    } else {
      CountUpTo(times[..|times| - 1], from, to, to');
    }
  }

  // ---------- The bound is reached ----------

  ghost predicate Forward(times: seq<i64>) {
    forall i, j :: 0 <= i < j < |times| ==> times[i] <= times[j]
  }

  /** One attempt as soon as each lock ends. */
  function Eager(start: i64, n: nat): (times: seq<i64>)
    requires 0 <= start && start + LOCKOUT_SECS * (n + 1) <= I64_MAX
    ensures |times| == n
    ensures forall i :: 0 <= i < n ==> times[i] == start + LOCKOUT_SECS * i
  {
    seq(n, i requires 0 <= i < n => start + LOCKOUT_SECS * i)
  }

  lemma {:induction false} EagerIsEvaluated(rec: Record, start: i64, n: nat)
    requires 0 <= start && start + LOCKOUT_SECS * (n + 1) <= I64_MAX
    requires rec.attempts >= MAX_ATTEMPTS - 1 && rec.lockedUntil <= start
    ensures InRange(Eager(start, n)) && Evaluated(rec, Eager(start, n)) == Eager(start, n)
    decreases n
  {
    if n == 0 {
    } else {
      var times := Eager(start, n);
      var (attempts, lockedUntil) := OnFailedAttempt(rec.attempts, start);
      EagerIsEvaluated(Record(attempts, lockedUntil), start + LOCKOUT_SECS, n - 1);
      assert times[1..] == Eager(start + LOCKOUT_SECS, n - 1);
      assert times == [start] + times[1..];
    }
  }

  /** For every span of time some run, with a clock that only goes forward, evaluates exactly as many
      wrong codes as the bound allows. */
  lemma BoundIsReached(start: i64, T: nat) returns (times: seq<i64>)
    requires 0 <= start && start + T + 2 * LOCKOUT_SECS <= I64_MAX
    ensures InRange(times) && Evaluated(Record(0, 0), times) == times
    ensures Forward(times) && |times| == 5 + T / 900
    ensures forall i :: 0 <= i < |times| ==> start <= times[i] <= start + T
  {
    times := EagerWithin(start, T);
    times := PrependEvaluated(3, start, start + T, times);
    times := PrependEvaluated(2, start, start + T, times);
    times := PrependEvaluated(1, start, start + T, times);
    times := PrependEvaluated(0, start, start + T, times);
  }

  lemma EagerWithin(start: i64, T: nat) returns (times: seq<i64>)
    requires 0 <= start && start + T + 2 * LOCKOUT_SECS <= I64_MAX
    ensures InRange(times) && Forward(times) && Evaluated(Record(4, 0), times) == times
    ensures |times| == 1 + T / LOCKOUT_SECS
    ensures forall i :: 0 <= i < |times| ==> start <= times[i] <= start + T
  {
    var n := 1 + T / LOCKOUT_SECS;
    assert LOCKOUT_SECS * (n - 1) <= T;
    times := Eager(start, n);
    EagerIsEvaluated(Record(4, 0), start, n);
  }

  /** The first four wrong codes do not lock. */
  lemma PrependEvaluated(attempts: u32, start: i64, end: i64, rest: seq<i64>) returns (times: seq<i64>)
    requires attempts + 1 < MAX_ATTEMPTS && 0 <= start <= end && start + LOCKOUT_SECS <= I64_MAX
    requires InRange(rest) && Forward(rest) && forall i :: 0 <= i < |rest| ==> start <= rest[i] <= end
    requires Evaluated(Record(attempts + 1, 0), rest) == rest
    ensures |times| == |rest| + 1 && InRange(times) && Forward(times)
    ensures forall i :: 0 <= i < |times| ==> start <= times[i] <= end
    ensures Evaluated(Record(attempts, 0), times) == times
  {
    times := [start] + rest;
    assert forall i :: 0 < i < |times| ==> times[i] == rest[i - 1];
    assert times[1..] == rest;
  }
}
