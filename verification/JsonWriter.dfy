/** The streaming JSON string writer of src/baseline/monitor.cpp (`append_json_string`). */
module JsonWriter {
  import opened Bytes
  import opened Utf8

  const QUOTE: Byte := 0x22
  const BACKSLASH: Byte := 0x5C
  const REPLACEMENT: seq<Byte> := [0xEF, 0xBF, 0xBD]

  // ----- what the writer produces -----

  function HexDigit(n: nat): Byte
    requires n < 16
  {
    if n < 10 then 0x30 + n else 0x61 + n - 10
  }

  /** A complete character as it is written: escaped if the JSON grammar demands it. */
  function EscapeChar(c: seq<Byte>): seq<Byte>
    requires c != []
  {
    if |c| > 1 then c
    else
      match c[0]
      case 0x08 => [BACKSLASH, 0x62]
      case 0x09 => [BACKSLASH, 0x74]
      case 0x0A => [BACKSLASH, 0x6E]
      case 0x0C => [BACKSLASH, 0x66]
      case 0x0D => [BACKSLASH, 0x72]
      case 0x22 => [BACKSLASH, QUOTE]
      case 0x5C => [BACKSLASH, BACKSLASH]
      case b => if b <= 0x1F then [BACKSLASH, 0x75, 0x30, 0x30, HexDigit(b / 16), HexDigit(b % 16)] else c
  }

  /** How many bytes the reader takes at the front, once it knows whether they are a character:
      a complete character, the longest beginning of one, or a single stray byte. */
  function ChunkLength(s: seq<Byte>): (n: nat)
    requires s != []
    ensures 0 < n <= |s|
  {
    if Complete(s) then LeadLength(s[0])
    else if LongestBeginning(s) > 0 then LongestBeginning(s)
    else 1
  }

  /** The string body for an input: characters escaped, each maximal ill-formed piece replaced
      by U+FFFD, an unfinished character at the very end left as it is. */
  function Body(s: seq<Byte>): seq<Byte>
    decreases |s|
  {
    if s == [] then []
    else if Unfinished(s) then s
    else
      var n := ChunkLength(s);
      (if Complete(s) then EscapeChar(s[..n]) else REPLACEMENT) + Body(s[n..])
  }

  // ----- the writer -----

  lemma CodeOfTwo(a: Byte, b: Byte)
    ensures CodeAfter([a, b]) == LeadBits(a) * 64 + b % 64
  {
    assert [a, b][..1] == [a];
    assert LeadBits(a) < 256;
  }

  lemma CodeOfMore(p: seq<Byte>, b: Byte)
    requires p != [] && CodeAfter(p) < 0x80_0000
    ensures CodeAfter(p + [b]) == CodeAfter(p) * 64 + b % 64
  {
    assert (p + [b])[..|p|] == p;
  }

  lemma TwoByteCode(a: Byte, b: Byte)
    requires LeadLength(a) > 1 && SecondOk(a, b)
    ensures LeadLength(a) == 2 ==> 0x80 <= CodeAfter([a, b]) < 0x800
    ensures LeadLength(a) == 3 ==> 0x20 <= CodeAfter([a, b]) < 0x400
    ensures LeadLength(a) == 4 ==> 0x10 <= CodeAfter([a, b]) < 0x110
  {
    hide CodeAfter;
    CodeOfTwo(a, b);
  }

  /** The automaton's code point of a complete character: the byte itself for one byte, and
      never an ASCII value for more. */
  lemma CompleteCode(q: seq<Byte>)
    requires Complete(q) && |q| == LeadLength(q[0])
    ensures |q| == 1 ==> CodeAfter(q) == q[0]
    ensures |q| > 1 ==> CodeAfter(q) >= 0x80
  {
    if |q| == 2 {
      TwoByteCode(q[0], q[1]);
      assert q == [q[0], q[1]];
    } else if |q| > 2 {
      LongCode(q);
    }
  }

  lemma LongCode(q: seq<Byte>)
    requires Complete(q) && 3 <= |q| == LeadLength(q[0])
    ensures CodeAfter(q) >= 0x80
  {
    hide CodeAfter;
    hide LeadBits;
    TwoByteCode(q[0], q[1]);
    CodeOfMore([q[0], q[1]], q[2]);
    if |q| == 3 {
      assert q == [q[0], q[1]] + [q[2]];
    } else {
      CodeOfMore([q[0], q[1]] + [q[2]], q[3]);
      assert q == [q[0], q[1]] + [q[2]] + [q[3]];
    }
  }

  lemma BeginsAppended(p: seq<Byte>, rest: seq<Byte>, k: nat)
    requires k <= |p|
    ensures Begins(p + rest, k) <==> Begins(p, k)
  {
    assert forall i | 0 <= i < |p| :: (p + rest)[i] == p[i];
  }

  /** The body when the bytes `p` are a complete character. */
  lemma BodyOfComplete(p: seq<Byte>, rest: seq<Byte>)
    requires Complete(p) && |p| == LeadLength(p[0])
    ensures Body(p + rest) == EscapeChar(p) + Body(rest)
  {
    hide EscapeChar;
    hide Begins;
    var s := p + rest;
    BeginsAppended(p, rest, |p|);
    assert s[0] == p[0];
    assert s[..|p|] == p && s[|p|..] == rest;
  }

  /** The length of a rejected piece: everything pending, or the one stray byte. */
  lemma RejectedChunk(p: seq<Byte>, s: seq<Byte>)
    requires PendingOk(p) && p < s && !Begins(s, |p| + 1)
    ensures !Complete(s) && !Unfinished(s) && ChunkLength(s) == if p == [] then 1 else |p|
  {
    assert s == p + s[|p|..];
    if p != [] {
      BeginsAppended(p, s[|p|..], |p|);
      assert s[0] == p[0];
    }
  }

  /** The body when the next byte does not continue the pending ones: it is read again, unless
      nothing was pending. */
  lemma BodyOfRejected(p: seq<Byte>, rest: seq<Byte>)
    requires PendingOk(p) && rest != [] && !Begins(p + rest, |p| + 1)
    ensures p != [] ==> Body(p + rest) == REPLACEMENT + Body(rest)
    ensures p == [] ==> Body(rest) == REPLACEMENT + Body(rest[1..])
  {
    hide EscapeChar;
    hide Begins;
    hide ChunkLength;
    hide Complete;
    var s := p + rest;
    RejectedChunk(p, s);
    if p != [] {
      assert s[|p|..] == rest;
    } else {
      assert s == rest;
    }
  }

  /** The writer's position: bytes before `from` are written out, those up to `i` are pending. */
  ghost predicate Progress(start: seq<Byte>, s: seq<Byte>, from: nat, i: nat, done: seq<Byte>, out: seq<Byte>) {
    && from <= i <= |s|
    && PendingOk(s[from..i])
    && out == start + [QUOTE] + done + s[from..i]
    && Body(s) == done + Body(s[from..])
  }

  lemma ProgressReject(start: seq<Byte>, s: seq<Byte>, from: nat, i: nat, done: seq<Byte>, out: seq<Byte>)
    requires Progress(start, s, from, i, done, out) && i < |s| && !Begins(s[from..i] + [s[i]], i - from + 1)
    ensures var next := if from == i then i + 1 else i;
      && |out| >= i - from
      && Progress(start, s, next, next, done + REPLACEMENT, out[..|out| - (i - from)] + REPLACEMENT)
  {
    hide Body;
    hide Begins;
    var p := s[from..i];
    assert p + s[i..] == s[from..];
    assert (p + [s[i]]) + s[i + 1..] == s[from..];
    BeginsAppended(p + [s[i]], s[i + 1..], |p| + 1);
    BodyOfRejected(p, s[i..]);
    assert from == i ==> s[i..][1..] == s[i + 1..];
    assert out[..|out| - (i - from)] == start + [QUOTE] + done;
  }

  lemma ProgressPend(start: seq<Byte>, s: seq<Byte>, from: nat, i: nat, done: seq<Byte>, out: seq<Byte>)
    requires Progress(start, s, from, i, done, out) && i < |s| && PendingOk(s[from..i] + [s[i]])
    ensures Progress(start, s, from, i + 1, done, out + [s[i]])
  {
    hide Body;
    hide PendingOk;
    assert s[from..i + 1] == s[from..i] + [s[i]];
  }

  lemma ProgressComplete(start: seq<Byte>, s: seq<Byte>, from: nat, i: nat, done: seq<Byte>, out: seq<Byte>,
      last: seq<Byte>)
    requires Progress(start, s, from, i, done, out) && i < |s| && Complete(s[from..i] + [s[i]])
    requires s[from..i] + last == EscapeChar(s[from..i] + [s[i]])
    ensures Progress(start, s, i + 1, i + 1, done + EscapeChar(s[from..i] + [s[i]]), out + last)
  {
    hide Body;
    hide EscapeChar;
    var c := s[from..i] + [s[i]];
    CompleteLength(s[from..i], s[i]);
    assert c + s[i + 1..] == s[from..];
    BodyOfComplete(c, s[i + 1..]);
  }

  method AppendJsonString(start: seq<Byte>, s: seq<Byte>) returns (out: seq<Byte>)
    ensures out == start + [0x22] + Body(s) + [0x22]
  {
    hide Body;
    hide EscapeChar;
    hide EscapeLast;
    hide NextState;
    hide NextCode;
    hide ByteClass;
    hide StateAfter;
    hide CodeAfter;
    hide PendingOk;
    hide Begins;
    hide Complete;
    hide Progress;
    out := start + [QUOTE];
    var codepoint := 0;
    var state := ACCEPT;
    var undumped := 0;
    var i := 0;
    ghost var done: seq<Byte> := [];
    NothingPending();
    ProgressStart(start, s);
    while i < |s|
      invariant 0 <= undumped <= i <= |s|
      invariant state == StateAfter(s[i - undumped..i])
      invariant undumped > 0 ==> codepoint == CodeAfter(s[i - undumped..i])
      invariant Progress(start, s, i - undumped, i, done, out)
      decreases |s| - i, undumped
    {
      var byte := s[i];
      ghost var pending := s[i - undumped..i];
      ProgressPending(start, s, i - undumped, i, done, out);
      AutomatonStep(pending, byte);
      NextCodePending(pending, byte);
      codepoint := NextCode(state, codepoint, byte);
      state := NextState(state, ByteClass(byte));
      if state == REJECT {
        ProgressReject(start, s, i - undumped, i, done, out);
        out := out[..|out| - undumped] + REPLACEMENT;
        done := done + REPLACEMENT;
        if undumped == 0 {
          i := i + 1;
        }
        undumped := 0;
        state := ACCEPT;
        EmptySlice(s, i);
      } else if state != ACCEPT {
        ProgressPend(start, s, i - undumped, i, done, out);
        SliceGrows(s, i - undumped, i);
        out := out + [byte];
        undumped := undumped + 1;
        i := i + 1;
      } else {
        CompleteLength(pending, byte);
        CompleteCode(pending + [byte]);
        EscapeByCode(pending, byte, codepoint);
        ProgressComplete(start, s, i - undumped, i, done, out, EscapeLast(codepoint, byte));
        out := out + EscapeLast(codepoint, byte);
        done := done + EscapeChar(pending + [byte]);
        undumped := 0;
        i := i + 1;
        EmptySlice(s, i);
      }
    }
    ProgressEnd(start, s, i - undumped, done, out);
    out := out + [QUOTE];
  }

  lemma SliceGrows(s: seq<Byte>, from: nat, i: nat)
    requires from <= i < |s|
    ensures s[from..i + 1] == s[from..i] + [s[i]]
  {
  }

  lemma EmptySlice(s: seq<Byte>, i: nat)
    requires i <= |s|
    ensures s[i..i] == []
  {
  }

  lemma ProgressStart(start: seq<Byte>, s: seq<Byte>)
    ensures Progress(start, s, 0, 0, [], start + [QUOTE]) && s[0..0] == []
  {
    hide Body;
    assert s[0..] == s;
  }

  lemma ProgressPending(start: seq<Byte>, s: seq<Byte>, from: nat, i: nat, done: seq<Byte>, out: seq<Byte>)
    requires Progress(start, s, from, i, done, out)
    ensures PendingOk(s[from..i]) && |out| >= i - from
  {
    hide Body;
    hide PendingOk;
  }

  lemma ProgressEnd(start: seq<Byte>, s: seq<Byte>, from: nat, done: seq<Byte>, out: seq<Byte>)
    requires Progress(start, s, from, |s|, done, out)
    ensures out == start + [QUOTE] + Body(s)
  {
    hide Body;
    assert s[from..|s|] == s[from..];
    UnfinishedBody(s[from..]);
  }

  lemma CompleteLength(p: seq<Byte>, b: Byte)
    requires PendingOk(p) && Complete(p + [b])
    ensures |p + [b]| == LeadLength((p + [b])[0])
  {
  }

  lemma NothingPending()
    ensures PendingOk([]) && StateAfter([]) == ACCEPT
  {
  }

  lemma UnfinishedBody(p: seq<Byte>)
    requires PendingOk(p)
    ensures Body(p) == p
  {
  }

  lemma NextCodePending(p: seq<Byte>, b: Byte)
    requires PendingOk(p)
    ensures p == [] ==> NextCode(StateAfter(p), 0, b) == CodeAfter(p + [b])
    ensures forall code :: p == [] ==> NextCode(StateAfter(p), code, b) == CodeAfter(p + [b])
    ensures p != [] ==> NextCode(StateAfter(p), CodeAfter(p), b) == CodeAfter(p + [b])
  {
    assert (p + [b])[..|p|] == p;
  }

  /** What the source's switch on the code point appends for the last byte of a character. */
  function EscapeLast(codepoint: nat, b: Byte): seq<Byte> {
    match codepoint
    case 0x08 => [BACKSLASH, 0x62]
    case 0x09 => [BACKSLASH, 0x74]
    case 0x0A => [BACKSLASH, 0x6E]
    case 0x0C => [BACKSLASH, 0x66]
    case 0x0D => [BACKSLASH, 0x72]
    case 0x22 => [BACKSLASH, QUOTE]
    case 0x5C => [BACKSLASH, BACKSLASH]
    case _ =>
      if codepoint <= 0x1F then [BACKSLASH, 0x75, 0x30, 0x30, HexDigit(codepoint / 16), HexDigit(codepoint % 16)]
      else [b]
  }

  lemma EscapeByCode(p: seq<Byte>, b: Byte, code: nat)
    requires p == [] ==> code == b
    requires p != [] ==> code >= 0x80
    ensures p + EscapeLast(code, b) == EscapeChar(p + [b])
  {
  }
}
