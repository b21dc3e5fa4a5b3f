/** Event ids of src/storage/event_store.cpp: 48 bits of time and 80 random bits as 26 digits of
    Crockford's base 32. */
module Ulid {
  const CROCKFORD := "0123456789ABCDEFGHJKMNPQRSTVWXYZ"

  // ----- positional numbers -----

  /** The number that big-endian digits denote. */
  function Value(digits: seq<nat>, base: nat): nat {
    if digits == [] then 0 else Value(digits[..|digits| - 1], base) * base + digits[|digits| - 1]
  }

  function Numbers(bytes: seq<bv8>): (n: seq<nat>)
    ensures |n| == |bytes| && forall i | 0 <= i < |n| :: n[i] == bytes[i] as int < 256
  {
    seq(|bytes|, i requires 0 <= i < |bytes| => bytes[i] as int)
  }

  predicate Below(digits: seq<nat>, base: nat) {
    forall i | 0 <= i < |digits| :: digits[i] < base
  }

  // ----- the digits, five bits each -----

  function High3(b: bv8): (d: bv8) ensures d < 32 { (b & 0xE0) >> 5 }

  function Low5(b: bv8): (d: bv8) ensures d < 32 { b & 0x1F }

  function High5(b: bv8): (d: bv8) ensures d < 32 { (b & 0xF8) >> 3 }

  function Join3(a: bv8, b: bv8): (d: bv8) ensures d < 32 { ((a & 0x07) << 2) | ((b & 0xC0) >> 6) }

  function Mid5(b: bv8): (d: bv8) ensures d < 32 { (b & 0x3E) >> 1 }

  function Join1(a: bv8, b: bv8): (d: bv8) ensures d < 32 { ((a & 0x01) << 4) | ((b & 0xF0) >> 4) }

  function Join4(a: bv8, b: bv8): (d: bv8) ensures d < 32 { ((a & 0x0F) << 1) | ((b & 0x80) >> 7) }

  function Upper5(b: bv8): (d: bv8) ensures d < 32 { (b & 0x7C) >> 2 }

  function Join2(a: bv8, b: bv8): (d: bv8) ensures d < 32 { ((a & 0x03) << 3) | ((b & 0xE0) >> 5) }

  /** Five bytes make eight digits. */
  function Group(a: bv8, b: bv8, c: bv8, d: bv8, e: bv8): (digits: seq<bv8>)
    ensures |digits| == 8 && forall i | 0 <= i < 8 :: digits[i] < 32
  {
    [High5(a), Join3(a, b), Mid5(b), Join1(b, c), Join4(c, d), Upper5(d), Join2(d, e), Low5(e)]
  }

  function Digits(b: seq<bv8>): (digits: seq<bv8>)
    requires |b| == 16
    ensures |digits| == 26 && forall i | 0 <= i < 26 :: digits[i] < 32
  {
    [High3(b[0]), Low5(b[0])] + Group(b[1], b[2], b[3], b[4], b[5]) + Group(b[6], b[7], b[8], b[9], b[10])
    + Group(b[11], b[12], b[13], b[14], b[15])
  }

  lemma SmallValue(d: bv8)
    requires d < 32
    ensures d as int < 32
  {
  }

  function Symbol(d: bv8): char
    requires d < 32
  {
    SmallValue(d);
    CROCKFORD[d as int]
  }

  function Text(digits: seq<bv8>): (text: string)
    requires forall i | 0 <= i < |digits| :: digits[i] < 32
    ensures |text| == |digits| && forall i | 0 <= i < |text| :: text[i] == Symbol(digits[i])
  {
    seq(|digits|, i requires 0 <= i < |digits| => Symbol(digits[i]))
  }

  method UlidEncode(b: array<bv8>, out: array<char>)
    requires b.Length == 16 && out.Length == 26
    modifies out
    ensures out[..] == Text(Digits(b[..]))
  {
    hide *;
    out[0] := Symbol(High3(b[0]));
    out[1] := Symbol(Low5(b[0]));
    ghost var start := out[..];
    PutGroup(b[1], b[2], b[3], b[4], b[5], out, 2);
    PutGroup(b[6], b[7], b[8], b[9], b[10], out, 10);
    PutGroup(b[11], b[12], b[13], b[14], b[15], out, 18);
    SplicedAll(start, Text(Group(b[1], b[2], b[3], b[4], b[5])), Text(Group(b[6], b[7], b[8], b[9], b[10])),
               Text(Group(b[11], b[12], b[13], b[14], b[15])));
    TextOfDigits(b[..]);
    assert start[..2] == [Symbol(High3(b[0])), Symbol(Low5(b[0]))];
  }

  /** `text` written over `s` from `at` on. */
  function Spliced(s: string, at: nat, text: string): string
    requires at + |text| <= |s|
  {
    s[..at] + text + s[at + |text|..]
  }

  lemma SplicedAll(s: string, g: string, h: string, k: string)
    requires |s| == 26 && |g| == |h| == |k| == 8
    ensures Spliced(Spliced(Spliced(s, 2, g), 10, h), 18, k) == s[..2] + g + h + k
  {
  }

  /** The eight assignments for five bytes; the original writes them out three times. */
  method PutGroup(a: bv8, b: bv8, c: bv8, d: bv8, e: bv8, out: array<char>, at: nat)
    requires at + 8 <= out.Length
    modifies out
    ensures out[..] == Spliced(old(out[..]), at, Text(Group(a, b, c, d, e)))
  {
    hide High5;
    hide Join3;
    hide Mid5;
    hide Join1;
    hide Join4;
    hide Upper5;
    hide Join2;
    hide Low5;
    hide Symbol;
    out[at] := Symbol(High5(a));
    out[at + 1] := Symbol(Join3(a, b));
    out[at + 2] := Symbol(Mid5(b));
    out[at + 3] := Symbol(Join1(b, c));
    out[at + 4] := Symbol(Join4(c, d));
    out[at + 5] := Symbol(Upper5(d));
    out[at + 6] := Symbol(Join2(d, e));
    out[at + 7] := Symbol(Low5(e));
  }

  lemma TextOfDigits(b: seq<bv8>)
    requires |b| == 16
    ensures Text(Digits(b))
         == [Symbol(High3(b[0])), Symbol(Low5(b[0]))] + Text(Group(b[1], b[2], b[3], b[4], b[5]))
            + Text(Group(b[6], b[7], b[8], b[9], b[10])) + Text(Group(b[11], b[12], b[13], b[14], b[15]))
  {
    hide Group;
    hide High3;
    hide Low5;
    hide Symbol;
    var first := [High3(b[0]), Low5(b[0])];
    var g, h := Group(b[1], b[2], b[3], b[4], b[5]), Group(b[6], b[7], b[8], b[9], b[10]);
    var k := Group(b[11], b[12], b[13], b[14], b[15]);
    TextAppend(first, g);
    TextAppend(first + g, h);
    TextAppend(first + g + h, k);
    assert Text(first) == [Symbol(High3(b[0])), Symbol(Low5(b[0]))];
  }

  lemma TextAppend(a: seq<bv8>, b: seq<bv8>)
    requires forall i | 0 <= i < |a| :: a[i] < 32
    requires forall i | 0 <= i < |b| :: b[i] < 32
    ensures (forall i | 0 <= i < |a + b| :: (a + b)[i] < 32) && Text(a + b) == Text(a) + Text(b)
  {
    hide Symbol;
  }

  // ----- the digits denote the bytes' number -----

  lemma SingleParts(b: bv8)
    ensures High3(b) as int == b as int / 32
    ensures High5(b) as int == b as int / 8
  {
  }

  lemma LowPart(b: bv8)
    ensures Low5(b) as int == b as int % 32
  {
  }

  lemma ShiftedDown(b: bv8)
    ensures (b >> 1) as int == b as int / 2
    ensures (b >> 2) as int == b as int / 4
    ensures Mid5(b) == Low5(b >> 1) && Upper5(b) == Low5(b >> 2)
  {
  }

  lemma MiddleParts(b: bv8)
    ensures Mid5(b) as int == b as int / 2 % 32
    ensures Upper5(b) as int == b as int / 4 % 32
  {
    hide Mid5;
    hide Upper5;
    hide Low5;
    ShiftedDown(b);
    LowPart(b >> 1);
    LowPart(b >> 2);
  }

  /** Parts with no bit in common are joined by adding them. */
  lemma OrIsPlus(x: bv8, y: bv8)
    requires x & y == 0
    ensures x | y == x + y
  {
  }

  lemma SmallSum(x: bv8, y: bv8)
    requires x < 32 && y < 32
    ensures (x + y) as int == x as int + y as int
  {
  }

  lemma LowTriple(b: bv8)
    ensures ((b & 0x07) << 2) as int == b as int % 8 * 4
  {
  }

  lemma LowBit(b: bv8)
    ensures ((b & 0x01) << 4) as int == b as int % 2 * 16
  {
  }

  lemma LowNibble(b: bv8)
    ensures ((b & 0x0F) << 1) as int == b as int % 16 * 2
  {
  }

  lemma LowPair(b: bv8)
    ensures ((b & 0x03) << 3) as int == b as int % 4 * 8
  {
  }

  lemma HighBits(b: bv8)
    ensures ((b & 0xC0) >> 6) as int == b as int / 64
    ensures ((b & 0xF0) >> 4) as int == b as int / 16
    ensures ((b & 0x80) >> 7) as int == b as int / 128
    ensures ((b & 0xE0) >> 5) as int == b as int / 32
  {
  }

  lemma Join3Parts(a: bv8, b: bv8)
    ensures Join3(a, b) as int == a as int % 8 * 4 + b as int / 64
  {
    LowTriple(a);
    HighBits(b);
    OrIsPlus((a & 0x07) << 2, (b & 0xC0) >> 6);
    SmallSum((a & 0x07) << 2, (b & 0xC0) >> 6);
  }

  lemma Join1Parts(a: bv8, b: bv8)
    ensures Join1(a, b) as int == a as int % 2 * 16 + b as int / 16
  {
    LowBit(a);
    HighBits(b);
    OrIsPlus((a & 0x01) << 4, (b & 0xF0) >> 4);
    SmallSum((a & 0x01) << 4, (b & 0xF0) >> 4);
  }

  lemma Join4Parts(a: bv8, b: bv8)
    ensures Join4(a, b) as int == a as int % 16 * 2 + b as int / 128
  {
    LowNibble(a);
    HighBits(b);
    OrIsPlus((a & 0x0F) << 1, (b & 0x80) >> 7);
    SmallSum((a & 0x0F) << 1, (b & 0x80) >> 7);
  }

  lemma Join2Parts(a: bv8, b: bv8)
    ensures Join2(a, b) as int == a as int % 4 * 8 + b as int / 32
  {
    LowPair(a);
    HighBits(b);
    OrIsPlus((a & 0x03) << 3, (b & 0xE0) >> 5);
    SmallSum((a & 0x03) << 3, (b & 0xE0) >> 5);
  }

  // ----- numbers of sequences -----

  lemma {:induction false} ValueAppend(a: seq<nat>, b: seq<nat>, base: nat)
    ensures Value(a + b, base) == Value(a, base) * Power(base, |b|) + Value(b, base)
    decreases |b|
  {
    if b == [] {
      assert a + b == a;
    } else {
      var n := |b| - 1;
      assert (a + b)[..|a| + n] == a + b[..n];
      ValueAppend(a, b[..n], base);
      Distribute(Value(a, base), Power(base, n), Value(b[..n], base), base);
    }
  }

  function Power(base: nat, k: nat): nat {
    if k == 0 then 1 else Power(base, k - 1) * base
  }

  lemma Distribute(x: int, p: int, y: int, base: int)
    ensures (x * p + y) * base == x * (p * base) + y * base
  {
  }

  /** The digits of a group as parts of its bytes. */
  predicate IsSplit(g: seq<nat>, b: seq<nat>) {
    && |g| == 8 && |b| == 5
    && g[0] == b[0] / 8 && g[1] == b[0] % 8 * 4 + b[1] / 64 && g[2] == b[1] / 2 % 32
    && g[3] == b[1] % 2 * 16 + b[2] / 16 && g[4] == b[2] % 16 * 2 + b[3] / 128 && g[5] == b[3] / 4 % 32
    && g[6] == b[3] % 4 * 8 + b[4] / 32 && g[7] == b[4] % 32
  }

  /** Five bytes and their eight digits are the same number. */
  lemma GroupValue(a: bv8, b: bv8, c: bv8, d: bv8, e: bv8)
    ensures Value(Numbers(Group(a, b, c, d, e)), 32) == Value(Numbers([a, b, c, d, e]), 256)
  {
    hide *;
    GroupSplits(a, b, c, d, e);
    SplitSum(Numbers(Group(a, b, c, d, e)), Numbers([a, b, c, d, e]));
  }

  lemma GroupSplits(a: bv8, b: bv8, c: bv8, d: bv8, e: bv8)
    ensures IsSplit(Numbers(Group(a, b, c, d, e)), Numbers([a, b, c, d, e]))
    ensures Below(Numbers([a, b, c, d, e]), 256)
  {
    hide High3;
    hide High5;
    hide Join3;
    hide Mid5;
    hide Join1;
    hide Join4;
    hide Upper5;
    hide Join2;
    hide Low5;
    SingleParts(a);
    Join3Parts(a, b);
    MiddleParts(b);
    Join1Parts(b, c);
    Join4Parts(c, d);
    MiddleParts(d);
    Join2Parts(d, e);
    LowPart(e);
  }

  /** Splitting five bytes into eight groups of five bits loses nothing. */
  lemma SplitSum(g: seq<nat>, b: seq<nat>)
    requires IsSplit(g, b) && Below(b, 256)
    ensures Value(g, 32) == Value(b, 256)
  {
    hide Value;
    EightValue(g);
    FiveValue(b);
    hide Below;
    BytesSplit(g, b);
  }

  lemma BytesSplit(g: seq<nat>, b: seq<nat>)
    requires IsSplit(g, b) && Below(b, 256)
    ensures ((((((g[0] * 32 + g[1]) * 32 + g[2]) * 32 + g[3]) * 32 + g[4]) * 32 + g[5]) * 32 + g[6]) * 32 + g[7]
         == (((b[0] * 256 + b[1]) * 256 + b[2]) * 256 + b[3]) * 256 + b[4]
  {
    MiddleBits(b[1]);
    UpperBits(b[3]);
    RejoinedBits(b[0] / 8, b[0] % 8, b[1] / 64, b[1] / 2 % 32, b[1] % 2, b[2] / 16, b[2] % 16,
                 b[3] / 128, b[3] / 4 % 32, b[3] % 4, b[4] / 32, b[4] % 32);
  }

  lemma MiddleBits(x: nat)
    ensures x == x / 64 * 64 + x / 2 % 32 * 2 + x % 2
  {
  }

  lemma UpperBits(x: nat)
    ensures x == x / 128 * 128 + x / 4 % 32 * 4 + x % 4
  {
  }

  lemma RejoinedBits(a1: nat, a0: nat, b2: nat, b1: nat, b0: nat, c1: nat, c0: nat, d2: nat, d1: nat, d0: nat,
      e1: nat, e0: nat)
    ensures ((((((a1 * 32 + (a0 * 4 + b2)) * 32 + b1) * 32 + (b0 * 16 + c1)) * 32 + (c0 * 2 + d2)) * 32 + d1) * 32
        + (d0 * 8 + e1)) * 32 + e0
         == ((((a1 * 8 + a0) * 256 + (b2 * 64 + b1 * 2 + b0)) * 256 + (c1 * 16 + c0)) * 256
             + (d2 * 128 + d1 * 4 + d0)) * 256 + (e1 * 32 + e0)
  {
  }

  lemma ValueLast(g: seq<nat>, n: nat, base: nat)
    requires n < |g|
    ensures Value(g[..n + 1], base) == Value(g[..n], base) * base + g[n]
    ensures Value(g[..0], base) == 0
  {
    assert g[..n + 1][..n] == g[..n];
  }

  lemma EightValue(g: seq<nat>)
    requires |g| == 8
    ensures Value(g, 32)
         == ((((((g[0] * 32 + g[1]) * 32 + g[2]) * 32 + g[3]) * 32 + g[4]) * 32 + g[5]) * 32 + g[6]) * 32 + g[7]
  {
    hide Value;
    ValueLast(g, 0, 32);
    ValueLast(g, 1, 32);
    ValueLast(g, 2, 32);
    ValueLast(g, 3, 32);
    ValueLast(g, 4, 32);
    ValueLast(g, 5, 32);
    ValueLast(g, 6, 32);
    ValueLast(g, 7, 32);
    assert g[..8] == g;
  }

  lemma FiveValue(g: seq<nat>)
    requires |g| == 5
    ensures Value(g, 256) == (((g[0] * 256 + g[1]) * 256 + g[2]) * 256 + g[3]) * 256 + g[4]
  {
    hide Value;
    ValueLast(g, 0, 256);
    ValueLast(g, 1, 256);
    ValueLast(g, 2, 256);
    ValueLast(g, 3, 256);
    ValueLast(g, 4, 256);
    assert g[..5] == g;
  }

  lemma TwoValue(g: seq<nat>)
    requires |g| == 2
    ensures Value(g, 32) == g[0] * 32 + g[1]
  {
    hide Value;
    ValueLast(g, 0, 32);
    ValueLast(g, 1, 32);
    assert g[..2] == g;
  }
}
