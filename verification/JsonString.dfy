/** What the JSON string writer of src/baseline/monitor.cpp guarantees: legal JSON (section 7 of
    RFC 8259), well-formed UTF-8 (section 4 of RFC 3629), and the input back on unescaping. */
module JsonString {
  import opened Bytes
  import opened Utf8
  import opened JsonWriter

  // ----- the JSON string grammar on UTF-8 bytes -----

  predicate IsHex(b: Byte) {
    0x30 <= b <= 0x39 || 0x41 <= b <= 0x46 || 0x61 <= b <= 0x66
  }

  /** One of the two-character escapes. */
  predicate IsShortEscape(b: Byte) {
    b == 0x22 || b == 0x5C || b == 0x2F || b == 0x62 || b == 0x66 || b == 0x6E || b == 0x72 || b == 0x74
  }

  /** Length of the JSON string character at the front, or 0 if there is none. */
  function UnitLength(b: seq<Byte>): (n: nat)
    requires b != []
    ensures n <= |b|
  {
    if b[0] == 0x5C then
      if |b| >= 2 && IsShortEscape(b[1]) then 2
      else if |b| >= 6 && b[1] == 0x75 && IsHex(b[2]) && IsHex(b[3]) && IsHex(b[4]) && IsHex(b[5]) then 6
      else 0
    else if b[0] >= 0x20 && b[0] != 0x22 && Complete(b) then LeadLength(b[0])
    else 0
  }

  /** A legal string body: JSON string characters one after the other. */
  predicate LegalBody(b: seq<Byte>)
    decreases |b|
  {
    b == [] || (UnitLength(b) > 0 && LegalBody(b[UnitLength(b)..]))
  }

  lemma {:induction false} LegalIsWellFormed(b: seq<Byte>)
    requires LegalBody(b)
    ensures WellFormed(b)
    decreases |b|
  {
    hide Begins;
    if b != [] {
      var n := UnitLength(b);
      LegalIsWellFormed(b[n..]);
      if b[0] == BACKSLASH {
        AsciiUnit(b, n);
      }
    }
  }

  /** ASCII bytes are characters of their own. */
  lemma {:induction false} AsciiUnit(b: seq<Byte>, n: nat)
    requires n <= |b| && (forall i | 0 <= i < n :: b[i] <= 0x7F) && WellFormed(b[n..])
    ensures WellFormed(b)
  {
    hide WellFormed;
    if n == 0 {
      assert b[0..] == b;
    } else {
      var rest := b[1..];
      forall i | 0 <= i < n - 1
        ensures rest[i] <= 0x7F
      {
        assert rest[i] == b[i + 1];
      }
      assert rest[n - 1..] == b[n..];
      AsciiUnit(rest, n - 1);
      AsciiFirst(b);
    }
  }

  lemma AsciiFirst(b: seq<Byte>)
    requires b != [] && b[0] <= 0x7F && WellFormed(b[1..])
    ensures WellFormed(b)
  {
  }

  // ----- legal output -----

  lemma UnitAppended(unit: seq<Byte>, rest: seq<Byte>)
    requires unit != [] && UnitLength(unit) == |unit|
    ensures UnitLength(unit + rest) == |unit|
  {
    assert forall i | 0 <= i < |unit| :: (unit + rest)[i] == unit[i];
  }

  /** A legal piece in front does not change whether the rest is legal. */
  lemma LegalAppended(unit: seq<Byte>, rest: seq<Byte>)
    requires unit != [] && UnitLength(unit) == |unit|
    ensures LegalBody(unit + rest) <==> LegalBody(rest)
  {
    hide UnitLength;
    UnitAppended(unit, rest);
    assert (unit + rest)[|unit|..] == rest;
  }

  lemma EscapeCharIsUnit(c: seq<Byte>)
    requires Complete(c) && |c| == LeadLength(c[0])
    ensures EscapeChar(c) != [] && UnitLength(EscapeChar(c)) == |EscapeChar(c)|
  {
    assert |c| == 1 ==> c == [c[0]];
  }

  lemma ReplacementIsUnit()
    ensures UnitLength(REPLACEMENT) == |REPLACEMENT|
  {
  }

  lemma ChunkComplete(s: seq<Byte>)
    requires s != [] && Complete(s)
    ensures var c := s[..ChunkLength(s)]; Complete(c) && |c| == LeadLength(c[0]) && c[0] == s[0]
  {
    var n := ChunkLength(s);
    assert s[..n] + s[n..] == s;
    BeginsAppended(s[..n], s[n..], n);
  }

  /** The last `k` bytes begin a character that needs more. */
  predicate UnfinishedEnd(s: seq<Byte>, k: int) {
    1 <= k <= |s| && Unfinished(s[|s| - k..])
  }

  /** The input stops inside a character. */
  ghost predicate EndsUnfinished(s: seq<Byte>) {
    exists k :: UnfinishedEnd(s, k)
  }

  lemma UnfinishedIsIllegal(p: seq<Byte>)
    requires Unfinished(p)
    ensures !LegalBody(p) && !WellFormed(p)
  {
  }

  /** Continuation bytes never lead, so an unfinished end starts at a chunk boundary. */
  lemma EndsUnfinishedSkip(s: seq<Byte>)
    requires s != [] && !Unfinished(s)
    ensures EndsUnfinished(s) <==> EndsUnfinished(s[ChunkLength(s)..])
  {
    hide UnfinishedEnd;
    hide Unfinished;
    hide ChunkLength;
    var rest := s[ChunkLength(s)..];
    forall k: int
      ensures UnfinishedEnd(s, k) <==> UnfinishedEnd(rest, k)
    {
      UnfinishedEndSkip(s, k);
    }
  }

  lemma UnfinishedEndSkip(s: seq<Byte>, k: int)
    requires s != [] && !Unfinished(s)
    ensures UnfinishedEnd(s, k) <==> UnfinishedEnd(s[ChunkLength(s)..], k)
  {
    hide Unfinished;
    hide ChunkLength;
    var rest := s[ChunkLength(s)..];
    if 1 <= k <= |rest| {
      assert rest[|rest| - k..] == s[|s| - k..];
    } else if 1 <= k <= |s| {
      InsideChunkCannotLead(s, k);
    }
  }

  lemma InsideChunkCannotLead(s: seq<Byte>, k: nat)
    requires s != [] && !Unfinished(s) && |s| - ChunkLength(s) < k <= |s|
    ensures !Unfinished(s[|s| - k..])
  {
    var j := |s| - k;
    if j == 0 {
      assert s[0..] == s;
    } else {
      var n := ChunkLength(s);
      assert Begins(s, n);
      assert s[j..][0] == s[j];
      assert IsTail(s[j]);
    }
  }

  /** The written body is legal JSON, and well-formed UTF-8, exactly when the input does not
      stop inside an unfinished character. */
  lemma {:induction false} BodyLegalIff(s: seq<Byte>)
    ensures LegalBody(Body(s)) <==> !EndsUnfinished(s)
    ensures WellFormed(Body(s)) <==> !EndsUnfinished(s)
    decreases |s|
  {
    hide LegalBody;
    hide WellFormed;
    hide EscapeChar;
    hide UnitLength;
    hide Unfinished;
    hide Complete;
    hide ChunkLength;
    hide EndsUnfinished;
    if s == [] {
      EmptyLegal();
      NothingEndsUnfinished();
    } else if Unfinished(s) {
      UnfinishedIsIllegal(s);
      UnfinishedIsEnd(s);
    } else {
      var n := ChunkLength(s);
      BodyLegalIff(s[n..]);
      EndsUnfinishedSkip(s);
      var head := if Complete(s) then EscapeChar(s[..n]) else REPLACEMENT;
      if Complete(s) {
        ChunkComplete(s);
        EscapeCharIsUnit(s[..n]);
        EscapeCharWellFormed(s[..n]);
      } else {
        ReplacementIsUnit();
        ReplacementWellFormed();
      }
      LegalAppended(head, Body(s[n..]));
      WellFormedAppended(head, Body(s[n..]));
    }
  }

  lemma UnfinishedIsEnd(s: seq<Byte>)
    requires s != [] && Unfinished(s)
    ensures EndsUnfinished(s)
  {
    hide Unfinished;
    assert s[0..] == s;
    assert UnfinishedEnd(s, |s|);
  }

  lemma NothingEndsUnfinished()
    ensures !EndsUnfinished([])
  {
  }

  lemma EmptyLegal()
    ensures LegalBody([]) && WellFormed([]) && Body([]) == []
  {
  }

  lemma {:induction false} WellFormedAppended(a: seq<Byte>, b: seq<Byte>)
    requires WellFormed(a)
    ensures WellFormed(a + b) <==> WellFormed(b)
    decreases |a|
  {
    hide Begins;
    if a == [] {
      assert a + b == b;
    } else {
      var n := LeadLength(a[0]);
      BeginsWithin(a, n);
      WellFormedAppended(a[n..], b);
      BeginsAppended(a, b, n);
      assert (a + b)[n..] == a[n..] + b;
      assert (a + b)[0] == a[0];
    }
  }

  lemma BeginsWithin(s: seq<Byte>, k: nat)
    requires Begins(s, k)
    ensures 1 <= k <= |s|
  {
  }

  lemma EscapeCharWellFormed(c: seq<Byte>)
    requires Complete(c) && |c| == LeadLength(c[0])
    ensures WellFormed(EscapeChar(c))
  {
    var e := EscapeChar(c);
    if |c| > 1 {
      assert e[LeadLength(e[0])..] == [];
    } else {
      AsciiUnit(e, |e|);
    }
  }

  lemma ReplacementWellFormed()
    ensures WellFormed(REPLACEMENT)
  {
    assert REPLACEMENT[3..] == [];
  }

  // ----- unescaping gives the input back -----

  function HexValue(b: Byte): nat {
    if b <= 0x39 then (if b >= 0x30 then b - 0x30 else 0)
    else if b <= 0x46 then b - 55
    else if b >= 0x61 then b - 87
    else 0
  }

  /** UTF-8 of a code unit written as four hexadecimal digits. */
  function Encode(code: nat): seq<Byte> {
    if code < 0x80 then [code]
    else if code < 0x800 then [0xC0 + code / 64, 0x80 + code % 64]
    else if code < 0x1_0000 then [0xE0 + code / 4096, 0x80 + code / 64 % 64, 0x80 + code % 64]
    else []
  }

  /** The bytes that one JSON string character stands for. */
  function UnitMeaning(u: seq<Byte>): seq<Byte>
    requires u != [] && UnitLength(u) == |u|
  {
    if u[0] != 0x5C then u
    else if |u| == 6 then
      Encode(HexValue(u[2]) * 4096 + HexValue(u[3]) * 256 + HexValue(u[4]) * 16 + HexValue(u[5]))
    else
      match u[1]
      case 0x62 => [0x08]
      case 0x74 => [0x09]
      case 0x6E => [0x0A]
      case 0x66 => [0x0C]
      case 0x72 => [0x0D]
      case b => [b]
  }

  function Unescape(b: seq<Byte>): seq<Byte>
    requires LegalBody(b)
    decreases |b|
  {
    if b == [] then []
    else
      var n := UnitLength(b);
      UnitCut(b);
      UnitMeaning(b[..n]) + Unescape(b[n..])
  }

  lemma UnitCut(b: seq<Byte>)
    requires b != [] && UnitLength(b) > 0
    ensures UnitLength(b[..UnitLength(b)]) == UnitLength(b)
  {
    var n := UnitLength(b);
    if b[0] != BACKSLASH {
      assert b[..n] + b[n..] == b;
      BeginsAppended(b[..n], b[n..], n);
    }
  }

  lemma MeaningOfEscape(c: seq<Byte>)
    requires Complete(c) && |c| == LeadLength(c[0])
    requires UnitLength(EscapeChar(c)) == |EscapeChar(c)|
    ensures UnitMeaning(EscapeChar(c)) == c
  {
    if |c| == 1 {
      assert c == [c[0]];
    }
  }

  lemma UnescapeAppended(unit: seq<Byte>, rest: seq<Byte>)
    requires unit != [] && UnitLength(unit) == |unit| && LegalBody(rest)
    ensures LegalBody(unit + rest) && Unescape(unit + rest) == UnitMeaning(unit) + Unescape(rest)
  {
    hide UnitLength;
    hide UnitMeaning;
    LegalAppended(unit, rest);
    UnitAppended(unit, rest);
    assert (unit + rest)[..|unit|] == unit && (unit + rest)[|unit|..] == rest;
  }

  /** The input with every maximal ill-formed piece replaced by U+FFFD. */
  function Sanitized(s: seq<Byte>): seq<Byte>
    decreases |s|
  {
    if s == [] then []
    else
      var n := ChunkLength(s);
      (if Complete(s) then s[..n] else REPLACEMENT) + Sanitized(s[n..])
  }

  lemma {:induction false} SanitizedWellFormed(s: seq<Byte>)
    requires WellFormed(s)
    ensures Sanitized(s) == s && !EndsUnfinished(s)
    decreases |s|
  {
    hide Begins;
    if s != [] {
      var n := ChunkLength(s);
      SanitizedWellFormed(s[n..]);
      assert s[..n] + s[n..] == s;
      CompleteIsFinished(s);
      EndsUnfinishedSkip(s);
    }
  }

  lemma CompleteIsFinished(s: seq<Byte>)
    requires Complete(s)
    ensures !Unfinished(s)
  {
  }

  /** Unescaping the written body gives the sanitised input, for every input that does not stop
      inside a character. */
  lemma {:induction false} UnescapeUndoesBody(s: seq<Byte>)
    requires !EndsUnfinished(s)
    ensures LegalBody(Body(s)) && Unescape(Body(s)) == Sanitized(s)
    decreases |s|
  {
    hide LegalBody;
    hide EscapeChar;
    hide UnitLength;
    hide UnitMeaning;
    hide Unfinished;
    hide Complete;
    hide ChunkLength;
    hide EndsUnfinished;
    BodyLegalIff(s);
    if s == [] {
    } else {
      NotUnfinished(s);
      var n := ChunkLength(s);
      EndsUnfinishedSkip(s);
      UnescapeUndoesBody(s[n..]);
      if Complete(s) {
        ChunkComplete(s);
        EscapeCharIsUnit(s[..n]);
        MeaningOfEscape(s[..n]);
        UnescapeAppended(EscapeChar(s[..n]), Body(s[n..]));
      } else {
        ReplacementIsUnit();
        ReplacementMeaning();
        UnescapeAppended(REPLACEMENT, Body(s[n..]));
      }
    }
  }

  lemma NotUnfinished(s: seq<Byte>)
    requires s != [] && !EndsUnfinished(s)
    ensures !Unfinished(s)
  {
    hide Unfinished;
    if Unfinished(s) {
      UnfinishedIsEnd(s);
    }
  }

  lemma ReplacementMeaning()
    ensures UnitLength(REPLACEMENT) == 3 && UnitMeaning(REPLACEMENT) == REPLACEMENT
  {
  }

  /** What stands for an ill-formed piece is the character U+FFFD. */
  lemma ReplacementIs()
    ensures REPLACEMENT == Encode(0xFFFD) == [0xEF, 0xBF, 0xBD]
  {
  }

  /** A byte that can stand nowhere in a character is written as U+FFFD. */
  lemma StrayByteIsReplaced(b: Byte)
    requires 0x80 <= b <= 0xC1 || b >= 0xF5
    ensures Body([b]) == [0xEF, 0xBF, 0xBD]
  {
    assert [b][1..] == [];
  }

  /** A control character is written with its two-character escape if the grammar has one, and
      with four lower-case hexadecimal digits otherwise; other ASCII characters are written as they
      are, but for the quote and the backslash. */
  lemma AsciiIsWritten(b: Byte)
    requires b <= 0x7F
    ensures b == 0x08 || b == 0x09 || b == 0x0A || b == 0x0C || b == 0x0D || b == 0x22 || b == 0x5C <==>
              |Body([b])| == 2
    ensures |Body([b])| == 6 <==> b <= 0x1F && |Body([b])| != 2
    ensures |Body([b])| == 6 ==> forall i | 2 <= i < 6 :: !(0x41 <= Body([b])[i] <= 0x46)
    ensures b > 0x1F && b != 0x22 && b != 0x5C ==> Body([b]) == [b]
  {
    assert [b][1..] == [] && [b][..1] == [b];
    assert Body([]) == [];
  }

  /** Well-formed input comes back unchanged. */
  lemma RoundTrip(s: seq<Byte>)
    requires WellFormed(s)
    ensures LegalBody(Body(s)) && Unescape(Body(s)) == s
  {
    hide Unescape;
    hide LegalBody;
    SanitizedWellFormed(s);
    UnescapeUndoesBody(s);
  }
}
