/** Ids as numbers and as text: the encoding keeps the number, so distinct ids have distinct
    texts, and text order is order by time and then by the random part. */
module UlidOrder {
  import opened Arithmetic
  import opened TextOrder
  import opened Ulid

  const TIME_RANGE := 0x1_0000_0000_0000

  // ----- the same number -----

  lemma NumbersAppend(a: seq<bv8>, b: seq<bv8>)
    ensures Numbers(a + b) == Numbers(a) + Numbers(b)
  {
  }

  /** Value of a group appended to what stands before it, in both bases. */
  lemma GroupAppended(digits: seq<bv8>, bytes: seq<bv8>, a: bv8, b: bv8, c: bv8, d: bv8, e: bv8)
    requires Value(Numbers(digits), 32) == Value(Numbers(bytes), 256)
    ensures Value(Numbers(digits + Group(a, b, c, d, e)), 32) == Value(Numbers(bytes + [a, b, c, d, e]), 256)
  {
    hide *;
    NumbersAppend(digits, Group(a, b, c, d, e));
    NumbersAppend(bytes, [a, b, c, d, e]);
    ValueAppend(Numbers(digits), Numbers(Group(a, b, c, d, e)), 32);
    ValueAppend(Numbers(bytes), Numbers([a, b, c, d, e]), 256);
    GroupValue(a, b, c, d, e);
    GroupWeights();
  }

  lemma GroupWeights()
    ensures Power(32, 8) == Power(256, 5)
  {
    assert Power(32, 4) == 1048576;
    assert Power(256, 3) == 16777216;
  }

  lemma FirstByteValue(b: bv8)
    ensures Value(Numbers([High3(b), Low5(b)]), 32) == Value(Numbers([b]), 256)
  {
    hide High3;
    hide Low5;
    hide Value;
    SingleParts(b);
    LowPart(b);
    TwoValue(Numbers([High3(b), Low5(b)]));
    ValueLast(Numbers([b]), 0, 256);
    assert Numbers([b])[..1] == Numbers([b]);
  }

  /** The 26 digits denote the same 128-bit number as the 16 bytes. */
  lemma DigitsKeepTheNumber(b: seq<bv8>)
    requires |b| == 16
    ensures Value(Numbers(Digits(b)), 32) == Value(Numbers(b), 256)
  {
    hide Value;
    hide Numbers;
    hide Group;
    hide High3;
    hide Low5;
    var first := [High3(b[0]), Low5(b[0])];
    FirstByteValue(b[0]);
    GroupAppended(first, [b[0]], b[1], b[2], b[3], b[4], b[5]);
    var g := first + Group(b[1], b[2], b[3], b[4], b[5]);
    assert [b[0]] + [b[1], b[2], b[3], b[4], b[5]] == b[..6];
    GroupAppended(g, b[..6], b[6], b[7], b[8], b[9], b[10]);
    assert b[..6] + [b[6], b[7], b[8], b[9], b[10]] == b[..11];
    GroupAppended(g + Group(b[6], b[7], b[8], b[9], b[10]), b[..11], b[11], b[12], b[13], b[14], b[15]);
    assert b[..11] + [b[11], b[12], b[13], b[14], b[15]] == b;
  }

  // ----- order of numbers and of digit sequences -----

  predicate LexLess(a: seq<nat>, b: seq<nat>) {
    b != [] && (a == [] || a[0] < b[0] || (a[0] == b[0] && LexLess(a[1..], b[1..])))
  }

  lemma {:induction false} ValueBound(digits: seq<nat>, base: nat)
    requires Below(digits, base)
    ensures 0 <= Value(digits, base) < Power(base, |digits|)
  {
    if digits != [] {
      var n := |digits| - 1;
      ValueBound(digits[..n], base);
      ProductBound(Value(digits[..n], base), Power(base, n), base, digits[n]);
    }
  }

  lemma ProductBound(v: nat, p: nat, base: nat, d: nat)
    requires v + 1 <= p && d < base
    ensures v * base + d < p * base
  {
    ProductGrows(v + 1, p, base);
    assert (v + 1) * base == v * base + base;
  }

  lemma ValueHead(digits: seq<nat>, base: nat)
    requires digits != []
    ensures Value(digits, base) == digits[0] * Power(base, |digits| - 1) + Value(digits[1..], base)
  {
    assert digits == [digits[0]] + digits[1..];
    ValueAppend([digits[0]], digits[1..], base);
    assert Value([digits[0]], base) == digits[0];
  }

  /** Among sequences of one length, dictionary order is numeric order. */
  lemma {:induction false} LexIsNumeric(a: seq<nat>, b: seq<nat>, base: nat)
    requires |a| == |b| && Below(a, base) && Below(b, base)
    ensures LexLess(a, b) <==> Value(a, base) < Value(b, base)
    ensures Value(a, base) == Value(b, base) ==> a == b
  {
    hide Value;
    hide Power;
    if a != [] {
      var n := |a| - 1;
      ValueHead(a, base);
      ValueHead(b, base);
      ValueBound(a[1..], base);
      ValueBound(b[1..], base);
      LexIsNumeric(a[1..], b[1..], base);
      HeadDecides(a[0], b[0], Power(base, n), Value(a[1..], base), Value(b[1..], base));
      assert a == [a[0]] + a[1..] && b == [b[0]] + b[1..];
    }
  }

  // ----- order of texts -----

  /** The alphabet is in ascending order. */
  lemma SymbolOrder(d: bv8, e: bv8)
    requires d < 32 && e < 32
    ensures Symbol(d) < Symbol(e) <==> d as int < e as int
    ensures Symbol(d) == Symbol(e) <==> d == e
  {
    SmallValue(d);
    SmallValue(e);
    SymbolCode(d as int);
    SymbolCode(e as int);
  }

  lemma SymbolCode(k: nat)
    requires k < 32
    ensures CROCKFORD[k] as int
         == if k < 10 then 48 + k else if k < 18 then 55 + k else if k < 20 then 56 + k
            else if k < 22 then 57 + k else if k < 27 then 58 + k else 59 + k
  {
  }

  lemma {:induction false} TextOrderIsLex(a: seq<bv8>, b: seq<bv8>)
    requires |a| == |b|
    requires forall i | 0 <= i < |a| :: a[i] < 32
    requires forall i | 0 <= i < |b| :: b[i] < 32
    ensures Before(Text(a), Text(b)) <==> LexLess(Numbers(a), Numbers(b))
    ensures Text(a) == Text(b) ==> a == b
  {
    hide Symbol;
    hide Text;
    hide Numbers;
    hide Before;
    hide LexLess;
    if a == [] {
      NothingBefore();
    } else {
      SymbolOrder(a[0], b[0]);
      TextOrderIsLex(a[1..], b[1..]);
      TailOf(a);
      TailOf(b);
      HeadFirst(Text(a), Text(b), Numbers(a), Numbers(b));
      assert a == [a[0]] + a[1..] && b == [b[0]] + b[1..];
    }
  }

  lemma NothingBefore()
    ensures Text([]) == [] && Numbers([]) == [] && !Before([], []) && !LexLess([], [])
  {
  }

  lemma TailOf(a: seq<bv8>)
    requires a != [] && forall i | 0 <= i < |a| :: a[i] < 32
    ensures |Text(a)| > 0 && Text(a)[0] == Symbol(a[0]) && Text(a)[1..] == Text(a[1..])
    ensures |Numbers(a)| > 0 && Numbers(a)[0] == a[0] as int && Numbers(a)[1..] == Numbers(a[1..])
  {
    hide Symbol;
  }

  lemma HeadFirst(s: string, t: string, x: seq<nat>, y: seq<nat>)
    requires s != [] && t != [] && x != [] && y != []
    ensures Before(s, t) <==> s[0] < t[0] || (s[0] == t[0] && Before(s[1..], t[1..]))
    ensures LexLess(x, y) <==> x[0] < y[0] || (x[0] == y[0] && LexLess(x[1..], y[1..]))
  {
  }

  /** An id's text. */
  function Encoded(b: seq<bv8>): string
    requires |b| == 16
  {
    Text(Digits(b))
  }

  function TimeOf(b: seq<bv8>): nat
    requires |b| == 16
  {
    Value(Numbers(b[..6]), 256)
  }

  function RandomOf(b: seq<bv8>): nat
    requires |b| == 16
  {
    Value(Numbers(b[6..]), 256)
  }

  lemma EncodedOrderIsNumeric(a: seq<bv8>, b: seq<bv8>)
    requires |a| == |b| == 16
    ensures Before(Encoded(a), Encoded(b)) <==> Value(Numbers(a), 256) < Value(Numbers(b), 256)
    ensures Encoded(a) == Encoded(b) ==> a == b
  {
    hide Value;
    hide Digits;
    hide Text;
    hide Numbers;
    hide LexLess;
    hide Before;
    DigitsKeepTheNumber(a);
    DigitsKeepTheNumber(b);
    DigitsBelow(Digits(a));
    DigitsBelow(Digits(b));
    TextOrderIsLex(Digits(a), Digits(b));
    LexIsNumeric(Numbers(Digits(a)), Numbers(Digits(b)), 32);
    BytesBelow(a);
    BytesBelow(b);
    LexIsNumeric(Numbers(a), Numbers(b), 256);
    SameNumbers(a, b);
  }

  lemma DigitsBelow(digits: seq<bv8>)
    requires forall i | 0 <= i < |digits| :: digits[i] < 32
    ensures Below(Numbers(digits), 32)
  {
    forall i | 0 <= i < |digits|
      ensures digits[i] as int < 32
    {
      SmallValue(digits[i]);
    }
  }

  lemma BytesBelow(b: seq<bv8>)
    ensures Below(Numbers(b), 256)
  {
  }

  lemma SameNumbers(a: seq<bv8>, b: seq<bv8>)
    requires |a| == |b|
    ensures Numbers(a) == Numbers(b) ==> a == b
  {
    if Numbers(a) == Numbers(b) {
      forall i | 0 <= i < |a|
        ensures a[i] == b[i]
      {
        SameValue(a[i], b[i]);
        assert Numbers(a)[i] == Numbers(b)[i];
      }
    }
  }

  lemma SameValue(a: bv8, b: bv8)
    ensures a as int == b as int ==> a == b
  {
  }

  /** Two ids compare as texts the way their times compare, and within one millisecond the way
      their random parts do; different bytes give different texts. */
  lemma TextOrderIsTimeThenRandom(a: seq<bv8>, b: seq<bv8>)
    requires |a| == |b| == 16
    ensures Before(Encoded(a), Encoded(b)) <==>
              TimeOf(a) < TimeOf(b) || (TimeOf(a) == TimeOf(b) && RandomOf(a) < RandomOf(b))
    ensures Encoded(a) == Encoded(b) <==> a == b
  {
    hide Value;
    hide Numbers;
    hide Power;
    hide Digits;
    hide Text;
    hide Before;
    EncodedOrderIsNumeric(a, b);
    TimeAndRandom(a);
    TimeAndRandom(b);
    HeadDecides(TimeOf(a), TimeOf(b), Power(256, 10), RandomOf(a), RandomOf(b));
  }

  lemma TimeAndRandom(b: seq<bv8>)
    requires |b| == 16
    ensures Value(Numbers(b), 256) == TimeOf(b) * Power(256, 10) + RandomOf(b)
    ensures RandomOf(b) < Power(256, 10)
  {
    hide Value;
    hide Power;
    assert b == b[..6] + b[6..];
    NumbersAppend(b[..6], b[6..]);
    ValueAppend(Numbers(b[..6]), Numbers(b[6..]), 256);
    BytesBelow(b[6..]);
    ValueBound(Numbers(b[6..]), 256);
  }

  // ----- making an id -----

  /** The random bytes handed out by successive calls, up to the first that fails. */
  function Handed(calls: seq<seq<bv8>>): seq<bv8> {
    if calls == [] || calls[0] == [] then [] else calls[0] + Handed(calls[1..])
  }

  /** What one more successful call hands out comes last; nothing is handed out after a failure. */
  lemma {:induction false} HandedInOrder(calls: seq<seq<bv8>>, more: seq<bv8>, later: seq<seq<bv8>>)
    requires forall c | c in calls :: c != []
    ensures Handed(calls + [more]) == Handed(calls) + more
    ensures Handed(calls + [[]] + later) == Handed(calls)
  {
    if calls != [] {
      assert calls[0] in calls && forall c | c in calls[1..] :: c in calls;
      assert (calls + [more])[1..] == calls[1..] + [more];
      assert (calls + [[]] + later)[1..] == calls[1..] + [[]] + later;
      HandedInOrder(calls[1..], more, later);
    } else {
      assert (calls + [more])[1..] == [] && [] + more == more && more + [] == more;
    }
  }

  /** Sixteen bytes: the low 48 bits of the time, then the first ten bytes handed out, each one
      missing replaced by the byte mixed for its place. */
  ghost predicate IsId(bytes: seq<bv8>, ms: nat, calls: seq<seq<bv8>>, mixed: seq<bv8>) {
    && |bytes| == 16 && |mixed| == 10
    && TimeOf(bytes) == ms % TIME_RANGE
    && forall i | 0 <= i < 10 :: bytes[6 + i] == if i < |Handed(calls)| then Handed(calls)[i] else mixed[i]
  }

  /** Fills in the time, then random bytes as they are handed out; `calls` are the results of the
      calls, an empty one being a failure. */
  method GenerateUlid(ms: nat, calls: seq<seq<bv8>>, mixed: seq<bv8>) returns (id: string)
    requires |mixed| == 10
    ensures exists bytes :: IsId(bytes, ms, calls, mixed) && id == Encoded(bytes)
  {
    hide *;
    var b := new bv8[16];
    b[0] := ByteAt(ms, 0x100_0000_0000);
    b[1] := ByteAt(ms, 0x1_0000_0000);
    b[2] := ByteAt(ms, 0x100_0000);
    b[3] := ByteAt(ms, 0x1_0000);
    b[4] := ByteAt(ms, 0x100);
    b[5] := ByteAt(ms, 1);
    ghost var time := b[..6];
    TimeBytes(ms, time);
    FillRandom(b, calls, mixed);
    assert b[..6] == time;
    var text := new char[26];
    UlidEncode(b, text);
    id := text[..];
    TimeIs(b[..], ms);
    EncodedIs(b[..]);
    IdIs(b[..], ms, calls, mixed);
  }

  /** The bytes from the sixth on: what was handed out, then what was mixed. */
  method FillRandom(b: array<bv8>, calls: seq<seq<bv8>>, mixed: seq<bv8>)
    requires b.Length == 16 && |mixed| == 10
    modifies b
    ensures b[..6] == old(b[..6])
    ensures forall i | 0 <= i < 10 :: b[6 + i] == if i < |Handed(calls)| then Handed(calls)[i] else mixed[i]
  {
    hide Handed;
    var got := 0;
    var k := 0;
    ghost var handed: seq<bv8> := [];
    NothingHanded(calls);
    while got < 10 && k < |calls| && |calls[k]| > 0
      invariant 0 <= got <= 10 && 0 <= k <= |calls|
      invariant b[..6] == old(b[..6])
      invariant Handed(calls) == handed + Handed(calls[k..])
      invariant got == if |handed| < 10 then |handed| else 10
      invariant forall i | 0 <= i < got :: b[6 + i] == handed[i]
    {
      var n := if |calls[k]| < 10 - got then |calls[k]| else 10 - got;
      MoreHanded(calls, k, handed);
      for i := 0 to n
        invariant b[..6] == old(b[..6])
        invariant forall j | 0 <= j < got :: b[6 + j] == handed[j]
        invariant forall j | 0 <= j < i :: b[6 + got + j] == calls[k][j]
      {
        b[6 + got + i] := calls[k][i];
      }
      handed := handed + calls[k];
      forall i | got <= i < got + n
        ensures b[6 + i] == handed[i]
      {
        assert b[6 + got + (i - got)] == calls[k][i - got];
      }
      got := got + n;
      k := k + 1;
    }
    NoMoreHanded(calls, k, handed);
    for i := got to 10
      invariant b[..6] == old(b[..6])
      invariant forall j | 0 <= j < got :: b[6 + j] == handed[j]
      invariant forall j | got <= j < i :: b[6 + j] == mixed[j]
    {
      b[6 + i] := mixed[i];
    }
  }

  lemma NothingHanded(calls: seq<seq<bv8>>)
    ensures Handed(calls) == [] + Handed(calls[0..])
  {
    assert calls[0..] == calls;
  }

  lemma MoreHanded(calls: seq<seq<bv8>>, k: nat, handed: seq<bv8>)
    requires k < |calls| && calls[k] != [] && Handed(calls) == handed + Handed(calls[k..])
    ensures Handed(calls) == (handed + calls[k]) + Handed(calls[k + 1..])
  {
    assert calls[k..][1..] == calls[k + 1..];
  }

  lemma NoMoreHanded(calls: seq<seq<bv8>>, k: nat, handed: seq<bv8>)
    requires k <= |calls| && Handed(calls) == handed + Handed(calls[k..])
    ensures handed <= Handed(calls)
    ensures k == |calls| || calls[k] == [] ==> Handed(calls) == handed
  {
  }

  lemma IdIs(bytes: seq<bv8>, ms: nat, calls: seq<seq<bv8>>, mixed: seq<bv8>)
    requires |bytes| == 16 && |mixed| == 10 && TimeOf(bytes) == ms % TIME_RANGE
    requires forall i | 0 <= i < 10 :: bytes[6 + i] == if i < |Handed(calls)| then Handed(calls)[i] else mixed[i]
    ensures IsId(bytes, ms, calls, mixed)
  {
  }

  /** `(ms >> shift) & 0xFF`, the shift given as its power of two. */
  function ByteAt(ms: nat, unit: nat): bv8
    requires unit > 0
  {
    ToByte(ms / unit % 256)
  }

  /** The byte of a number below 256. */
  function ToByte(x: nat): (b: bv8)
    requires x < 256
    ensures b as int == x
  {
    if x == 0 then 0
    else
      var below := ToByte(x - 1);
      NextByte(below);
      below + 1
  }

  lemma NextByte(b: bv8)
    requires b as int < 255
    ensures (b + 1) as int == b as int + 1
  {
  }

  predicate IsTime(ms: nat, time: seq<bv8>) {
    |time| == 6 && Value(Numbers(time), 256) == ms % TIME_RANGE
  }

  lemma TimeIs(b: seq<bv8>, ms: nat)
    requires |b| == 16 && IsTime(ms, b[..6])
    ensures TimeOf(b) == ms % TIME_RANGE
  {
  }

  lemma EncodedIs(b: seq<bv8>)
    requires |b| == 16
    ensures Encoded(b) == Text(Digits(b))
  {
  }

  lemma TimeBytes(ms: nat, time: seq<bv8>)
    requires time == [ByteAt(ms, 0x100_0000_0000), ByteAt(ms, 0x1_0000_0000), ByteAt(ms, 0x100_0000),
                      ByteAt(ms, 0x1_0000), ByteAt(ms, 0x100), ByteAt(ms, 1)]
    ensures IsTime(ms, time)
  {
    hide Value;
    hide ByteAt;
    var g := Numbers(time);
    ByteAtIs(ms, 0x100_0000_0000);
    ByteAtIs(ms, 0x1_0000_0000);
    ByteAtIs(ms, 0x100_0000);
    ByteAtIs(ms, 0x1_0000);
    ByteAtIs(ms, 0x100);
    ByteAtIs(ms, 1);
    TimeSum(g, ms);
  }

  lemma ByteAtIs(ms: nat, unit: nat)
    requires unit > 0
    ensures ByteAt(ms, unit) as int == ms / unit % 256
  {
    hide ToByte;
  }

  /** The low 48 bits, one byte at a time. */
  lemma TimeSum(g: seq<nat>, ms: nat)
    requires |g| == 6
    requires g[0] == ms / 0x100_0000_0000 % 256 && g[1] == ms / 0x1_0000_0000 % 256 && g[2] == ms / 0x100_0000 % 256
    requires g[3] == ms / 0x1_0000 % 256 && g[4] == ms / 0x100 % 256 && g[5] == ms / 1 % 256
    ensures Value(g, 256) == ms % TIME_RANGE
  {
    hide Value;
    NestedUnits(ms);
    TimeChain(g, ms / 0x100_0000_0000, ms / 0x1_0000_0000, ms / 0x100_0000, ms / 0x1_0000, ms / 0x100, ms);
  }

  lemma NestedUnits(ms: nat)
    ensures ms / 0x100_0000_0000 == ms / 0x1_0000_0000 / 256
    ensures ms / 0x1_0000_0000 == ms / 0x100_0000 / 256
    ensures ms / 0x100_0000 == ms / 0x1_0000 / 256
    ensures ms / 0x1_0000 == ms / 0x100 / 256
  {
  }

  lemma TimeChain(g: seq<nat>, x5: nat, x4: nat, x3: nat, x2: nat, x1: nat, x0: nat)
    requires x5 == x4 / 256 && x4 == x3 / 256 && x3 == x2 / 256 && x2 == x1 / 256 && x1 == x0 / 256
    requires |g| == 6 && g == [x5 % 256, x4 % 256, x3 % 256, x2 % 256, x1 % 256, x0 % 256]
    ensures Value(g, 256) == x0 % TIME_RANGE
  {
    hide Value;
    ValueLast(g, 0, 256);
    ValueLast(g, 1, 256);
    TimeStep(g, 2, x4, 0x100);
    TimeStep(g, 3, x3, 0x1_0000);
    TimeStep(g, 4, x2, 0x100_0000);
    TimeStep(g, 5, x1, 0x1_0000_0000);
    TimeStep(g, 6, x0, 0x100_0000_0000);
    assert g[..6] == g;
  }

  lemma TimeStep(g: seq<nat>, n: nat, x: nat, range: nat)
    requires 1 < n <= |g| && range > 0
    requires Value(g[..n - 1], 256) == x / 256 % range && g[n - 1] == x % 256
    ensures Value(g[..n], 256) == x % (range * 256)
  {
    hide Value;
    ValueLast(g, n - 1, 256);
    var q, a := x / 256, x / 256 / range;
    assert x == (range * a + q % range) * 256 + x % 256;
    assert (range * a) * 256 == (range * 256) * a;
    IsRemainder(x, range * 256, a, q % range * 256 + x % 256);
  }

  /** Ids made in different milliseconds sort by their times, as long as times fit 48 bits. */
  lemma LaterSortsAfter(ms1: nat, ms2: nat, a: seq<bv8>, b: seq<bv8>)
    requires |a| == |b| == 16 && TimeOf(a) == ms1 % TIME_RANGE && TimeOf(b) == ms2 % TIME_RANGE
    requires ms1 < ms2 < TIME_RANGE
    ensures Before(Encoded(a), Encoded(b))
  {
    hide Before;
    hide Encoded;
    hide TimeOf;
    TextOrderIsTimeThenRandom(a, b);
  }
}
