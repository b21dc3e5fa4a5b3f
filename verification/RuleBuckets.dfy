/** Which bucket src/detect/rule_engine.cpp files a rule under, exactly: the buckets decide the order
    in which rules are tried. */
module RuleBuckets {
  import opened Decimal
  import opened Options
  import opened RuleAst
  import opened RuleEval
  import opened RulePrefilter
  import opened ConditionPrinter

  // ----- the bucket of an event type -----

  lemma {:induction false} DotAfter(first: string, rest: string)
    requires '.' !in first
    ensures DotAt(first + "." + rest) == |first|
  {
    var s := first + "." + rest;
    if first == "" {
      assert s[0] == '.';
    } else {
      assert first[0] in first && s[0] == first[0];
      assert first == [first[0]] + first[1..];
      assert s[1..] == first[1..] + "." + rest;
      DotAfter(first[1..], rest);
    }
  }

  lemma {:induction false} NoDot(s: string)
    requires '.' !in s
    ensures DotAt(s) == |s|
  {
    if s != "" {
      assert s[0] in s && s == [s[0]] + s[1..];
      NoDot(s[1..]);
    }
  }

  lemma FirstPart(first: string, rest: string)
    requires '.' !in first
    ensures var t := first + "." + rest; DotAt(t) == |first| < |t| && t[..|first|] == first && t[|first| + 1..] == rest
  {
    DotAfter(first, rest);
    var t := first + "." + rest;
    assert t[..|first|] == first && t[|first| + 1..] == rest;
  }

  lemma FamiliesHaveNoDot()
    ensures '.' !in "file" && '.' !in "process" && '.' !in "priv" && '.' !in "ns" && '.' !in "dns" && '.' !in "network"
  {
  }

  lemma FamiliesDiffer()
    ensures "process" != "file" && "priv" != "file" && "priv" != "process" && "ns" != "dns"
    ensures "network" !in ["file", "process", "priv", "ns", "dns"] && "ns" !in ["file", "process", "priv"]
    ensures "dns" !in ["file", "process", "priv", "ns"]
  {
    assert "file"[0] == 'f' && "priv"[0] == 'p' && "ns"[0] == 'n' && "dns"[0] == 'd';
    assert |"process"| == 7 && |"network"| == 7 && "process"[0] == 'p' && "network"[0] == 'n';
  }

  /** An event type of a family has that family's bucket, and "network.dns" that of "dns". */
  lemma FamilyBuckets(rest: string)
    ensures BucketOfEventType("file" + "." + rest) == FileBucket
    ensures BucketOfEventType("process" + "." + rest) == ProcessBucket
    ensures BucketOfEventType("priv" + "." + rest) == PrivBucket
    ensures BucketOfEventType("ns" + "." + rest) == NsBucket
    ensures BucketOfEventType("dns" + "." + rest) == DnsBucket
    ensures BucketOfEventType("network" + "." + rest) == if rest == "dns" then DnsBucket else NetworkBucket
  {
    FamiliesHaveNoDot();
    FamiliesDiffer();
    FirstPart("file", rest);
    FirstPart("process", rest);
    FirstPart("priv", rest);
    FirstPart("ns", rest);
    FirstPart("dns", rest);
    FirstPart("network", rest);
    hide DotAt;
  }

  /** An event type with another first part, dotted or not, has the common bucket. */
  lemma OtherBuckets(first: string, rest: string)
    requires '.' !in first && first !in ["file", "process", "priv", "ns", "dns", "network"]
    ensures BucketOfEventType(first + "." + rest) == AllBucket && BucketOfEventType(first) == AllBucket
  {
    FirstPart(first, rest);
    NoDot(first);
    hide DotAt;
    assert first[..|first|] == first;
  }

  // ----- the bucket of a comparison -----

  const NO_EVENT := EventView(
    "", 0, 0, 0, 0, "", "", "", [], false, "", "", "", 0, 0, 0, 0, false, "", "", 0, 0, 0, 0, false, "", 0,
    false, "", "", 0, 0, 0, 0, false, "", "", "", "", "", 0, 0, 0, [])

  function EventOf(eventType: string): EventView {
    NO_EVENT.(eventType := eventType)
  }

  lemma NumbersHaveNoBucket(text: string)
    requires IsNumberText(text)
    ensures BucketOfEventType(text) == AllBucket
  {
    assert IsDigit(text[0]) && '.' !in text;
    assert "file"[0] == 'f' && "process"[0] == 'p' && "priv"[0] == 'p' && "ns"[0] == 'n' && "dns"[0] == 'd'
        && "network"[0] == 'n';
    OtherBuckets(text, "");
  }

  lemma EqualTypeIff(ev: EventView, literal: Operand)
    requires IsLiteral(literal)
    ensures Eval(ev, Compare(Eq, Field(EventType), literal)) <==> ev.eventType == Spelling(literal)
  {
  }

  lemma {:induction false} ListedTypeIff(ev: EventView, items: seq<Operand>)
    requires forall i | 0 <= i < |items| :: IsLiteral(items[i])
    ensures AnyItem(ev, EventType, Eq, items) <==> exists i | 0 <= i < |items| :: ev.eventType == Spelling(items[i])
  {
    if items != [] {
      ListedTypeIff(ev, items[1..]);
      assert forall i | 0 < i < |items| :: items[i] == items[1..][i - 1];
    }
  }

  lemma InListIff(ev: EventView, items: seq<Operand>)
    requires forall i | 0 <= i < |items| :: IsLiteral(items[i])
    ensures Eval(ev, Compare(In, Field(EventType), List(items))) <==>
              exists i | 0 <= i < |items| :: ev.eventType == Spelling(items[i])
  {
    ListedTypeIff(ev, items);
    hide AnyItem;
  }

  /** A test of the event type for equality, or against a list, is filed under a bucket other than
      the common one if and only if every event that passes the test is of that bucket. */
  lemma BucketOfTestIff(op: CmpOp, rhs: Operand, b: Bucket)
    requires WellFormed(Compare(op, Field(EventType), rhs)) && (op == Eq || op == In) && b != AllBucket
    ensures ExtractBucket(Compare(op, Field(EventType), rhs)) == b <==>
              forall ev | Eval(ev, Compare(op, Field(EventType), rhs)) :: BucketOfEventType(ev.eventType) == b
  {
    hide BucketOfEventType;
    var c := Compare(op, Field(EventType), rhs);
    if BucketOfCompare(c).Some? {
      forall ev | Eval(ev, c)
        ensures BucketOfEventType(ev.eventType) == BucketOfCompare(c).value
      {
        CompareBucketSound(ev, c);
      }
      var ev := SomeEvent(op, rhs);
    } else {
      NoBucketNoFamily(op, rhs, b);
    }
  }

  lemma SomeEvent(op: CmpOp, rhs: Operand) returns (ev: EventView)
    requires WellFormed(Compare(op, Field(EventType), rhs)) && (op == Eq || op == In)
    ensures Eval(ev, Compare(op, Field(EventType), rhs))
    ensures ev == EventOf(Spelling(if op == Eq then rhs else rhs.list[0]))
  {
    if op == Eq {
      ev := EventOf(Spelling(rhs));
      EqualTypeIff(ev, rhs);
    } else {
      ev := EventOf(Spelling(rhs.list[0]));
      InListIff(ev, rhs.list);
    }
    hide Eval;
  }

  lemma NoBucketNoFamily(op: CmpOp, rhs: Operand, b: Bucket)
    requires WellFormed(Compare(op, Field(EventType), rhs)) && (op == Eq || op == In) && b != AllBucket
    requires BucketOfCompare(Compare(op, Field(EventType), rhs)).None?
    ensures exists ev :: Eval(ev, Compare(op, Field(EventType), rhs)) && BucketOfEventType(ev.eventType) != b
  {
    hide BucketOfEventType;
    var c := Compare(op, Field(EventType), rhs);
    var ev := SomeEvent(op, rhs);
    if op == Eq {
      if rhs.Num? {
        NumbersHaveNoBucket(rhs.text);
      }
      assert BucketOfEventType(ev.eventType) == AllBucket;
    } else if BucketOfEventType(ev.eventType) == b {
      var i :| 0 <= i < |rhs.list| && BucketOfEventType(Spelling(rhs.list[i])) != b;
      var other := EventOf(Spelling(rhs.list[i]));
      InListIff(other, rhs.list);
      assert Eval(other, c) && BucketOfEventType(other.eventType) != b;
    }
  }

  /** No other comparison is filed under a bucket of its own. */
  lemma OtherTestsHaveNone(op: CmpOp, lhs: Operand, rhs: Operand)
    requires lhs != Field(EventType) || (op != Eq && op != In)
    ensures ExtractBucket(Compare(op, lhs, rhs)) == AllBucket
  {
  }

  // ----- the bucket of a condition -----

  /** The tests among the parts name this bucket at most. */
  predicate NameOnly(b: Bucket, parts: seq<Cond>) {
    forall i | 0 <= i < |parts| :: BucketOfCompare(parts[i]) == None || BucketOfCompare(parts[i]) == Some(b)
  }

  predicate Names(b: Bucket, parts: seq<Cond>) {
    exists i | 0 <= i < |parts| :: BucketOfCompare(parts[i]) == Some(b)
  }

  /** A conjunction is filed under a bucket if and only if some part of it names that bucket and no
      part names another; parts below the top are not looked at. */
  lemma BucketOfAllIff(parts: seq<Cond>, b: Bucket)
    requires b != AllBucket
    ensures ExtractBucket(And(parts)) == b <==> Names(b, parts) && NameOnly(b, parts)
  {
    hide BucketOfCompare;
    ScanIff(AllBucket, parts, b);
    hide ScanBuckets;
  }

  lemma {:induction false} ScanIff(found: Bucket, parts: seq<Cond>, b: Bucket)
    requires b != AllBucket
    ensures ScanBuckets(found, parts) == b <==>
              (found == b || Names(b, parts)) && (found == AllBucket || found == b) && NameOnly(b, parts)
    decreases parts
  {
    NeverCommon(parts);
    hide BucketOfCompare;
    if parts != [] {
      assert forall i | 0 < i < |parts| :: parts[i] == parts[1..][i - 1];
      assert forall i | 0 <= i < |parts[1..]| :: parts[1..][i] == parts[i + 1];
      match BucketOfCompare(parts[0])
      case None => ScanIff(found, parts[1..], b);
      case Some(c) => ScanIff(c, parts[1..], b);
    }
  }

  lemma NeverCommon(parts: seq<Cond>)
    ensures forall i | 0 <= i < |parts| :: BucketOfCompare(parts[i]) != Some(AllBucket)
  {
    hide BucketOfEventType;
  }

  lemma AlternativesHaveNone(c: Cond)
    requires c.Or? || c.Not?
    ensures ExtractBucket(c) == AllBucket
  {
  }
}
