/** UTF-8 byte sequences (section 4 of RFC 3629) and the byte automaton of
    src/baseline/monitor.cpp that recognises them. */
module Utf8 {
  import opened Bytes

  // ----- the grammar -----

  /** Number of bytes a lead byte announces; 0 for a byte that cannot lead. */
  function LeadLength(b: Byte): (n: nat)
    ensures n <= 4
  {
    if b <= 0x7F then 1
    else if 0xC2 <= b <= 0xDF then 2
    else if 0xE0 <= b <= 0xEF then 3
    else if 0xF0 <= b <= 0xF4 then 4
    else 0
  }

  predicate IsTail(b: Byte) {
    0x80 <= b <= 0xBF
  }

  /** The second byte excludes overlong forms, surrogates and values above U+10FFFF. */
  predicate SecondOk(lead: Byte, b: Byte) {
    && IsTail(b)
    && (lead == 0xE0 ==> b >= 0xA0)
    && (lead == 0xED ==> b <= 0x9F)
    && (lead == 0xF0 ==> b >= 0x90)
    && (lead == 0xF4 ==> b <= 0x8F)
  }

  /** The first `k` bytes begin some well-formed character. */
  predicate Begins(s: seq<Byte>, k: nat) {
    && 1 <= k <= |s| && k <= LeadLength(s[0])
    && (k >= 2 ==> SecondOk(s[0], s[1]))
    && (k >= 3 ==> IsTail(s[2]))
    && (k >= 4 ==> IsTail(s[3]))
  }

  /** A well-formed character stands at the front. */
  predicate Complete(s: seq<Byte>) {
    s != [] && Begins(s, LeadLength(s[0]))
  }

  predicate WellFormed(s: seq<Byte>)
    decreases |s|
  {
    s == [] || (Complete(s) && WellFormed(s[LeadLength(s[0])..]))
  }

  /** All of the bytes begin a character that has more bytes to come. */
  predicate Unfinished(s: seq<Byte>) {
    s != [] && Begins(s, |s|) && |s| < LeadLength(s[0])
  }

  /** The longest prefix that begins a well-formed character. */
  function LongestBeginning(s: seq<Byte>): (k: nat)
    ensures k <= |s|
    ensures k > 0 ==> Begins(s, k)
    ensures !Begins(s, k + 1)
  {
    if Begins(s, 4) then 4 else if Begins(s, 3) then 3 else if Begins(s, 2) then 2 else if Begins(s, 1) then 1 else 0
  }

  // ----- the automaton -----

  const ACCEPT := 0
  const REJECT := 1

  /** The class of a byte: the first 256 entries of the source's table, as ranges. */
  function ByteClass(b: Byte): (c: nat)
    ensures c < 12
  {
    if b <= 0x7F then 0
    else if b <= 0x8F then 1
    else if b <= 0x9F then 9
    else if b <= 0xBF then 7
    else if b <= 0xC1 then 8
    else if b <= 0xDF then 2
    else if b == 0xE0 then 10
    else if b == 0xED then 4
    else if b <= 0xEF then 3
    else if b == 0xF0 then 11
    else if b <= 0xF3 then 6
    else if b == 0xF4 then 5
    else 8
  }

  /** The transition rows s0 to s8 of the source's table. */
  function NextState(state: nat, c: nat): (r: nat)
    ensures r <= 8
  {
    match state
    case 0 =>
      (match c
       case 0 => 0
       case 2 => 2
       case 3 => 3
       case 4 => 5
       case 5 => 8
       case 6 => 7
       case 10 => 4
       case 11 => 6
       case _ => 1)
    case 2 => if c == 1 || c == 7 || c == 9 then 0 else 1
    case 3 => if c == 1 || c == 7 || c == 9 then 2 else 1
    case 4 => if c == 7 then 2 else 1
    case 5 => if c == 1 || c == 9 then 2 else 1
    case 6 => if c == 7 || c == 9 then 3 else 1
    case 7 => if c == 1 || c == 7 || c == 9 then 3 else 1
    case 8 => if c == 1 then 3 else 1
    case _ => 1
  }

  /** `(0xFF >> class) & byte`. */
  function LeadBits(b: Byte): nat {
    match ByteClass(b)
    case 0 => b
    case 2 => b % 64
    case 3 => b % 32
    case 4 => b % 16
    case 5 => b % 8
    case 6 => b % 4
    case 1 => b % 128
    case 7 => b % 2
    case _ => 0
  }

  /** The code point accumulator, a 32-bit word: `(byte & 0x3F) | (codep << 6)`, or the lead's bits. */
  function NextCode(state: nat, code: nat, b: Byte): nat {
    if state != ACCEPT then (code * 64 + b % 64) % 0x1_0000_0000 else LeadBits(b)
  }

  /** The automaton's state after the bytes of an unfinished character. */
  function StateAfter(p: seq<Byte>): nat {
    if p == [] then ACCEPT
    else if |p| == 1 then
      if p[0] == 0xE0 then 4 else if p[0] == 0xED then 5 else if p[0] == 0xF0 then 6 else if p[0] == 0xF4 then 8
      else if LeadLength(p[0]) == 2 then 2 else if LeadLength(p[0]) == 3 then 3 else 7
    else if |p| == 2 then (if LeadLength(p[0]) == 3 then 2 else 3)
    else 2
  }

  function CodeAfter(p: seq<Byte>): nat
  {
    if p == [] then 0
    else if |p| == 1 then LeadBits(p[0])
    else (CodeAfter(p[..|p| - 1]) * 64 + p[|p| - 1] % 64) % 0x1_0000_0000
  }

  predicate PendingOk(p: seq<Byte>) {
    p == [] || Unfinished(p)
  }

  /** One step of the automaton is one step of the grammar. */
  lemma AutomatonStep(p: seq<Byte>, b: Byte)
    requires PendingOk(p)
    ensures var next := NextState(StateAfter(p), ByteClass(b));
      && (next == ACCEPT <==> Complete(p + [b]))
      && (next == REJECT <==> !Begins(p + [b], |p| + 1))
      && (next != ACCEPT && next != REJECT ==> PendingOk(p + [b]) && StateAfter(p + [b]) == next)
  {
    var q := p + [b];
    assert q[|p|] == b;
    if |p| == 0 {
    } else if |p| == 1 {
      assert q[0] == p[0];
    } else if |p| == 2 {
      assert q[0] == p[0] && q[1] == p[1];
    } else {
      assert q[0] == p[0] && q[1] == p[1] && q[2] == p[2];
    }
  }
}
