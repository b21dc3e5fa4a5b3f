/** The compile-time filters of src/detect/rule_engine.cpp: the bit mask of event types a
    condition can match and the category bucket, both shown to over-approximate evaluation. */
module RulePrefilter {
  import opened Options
  import opened RuleAst
  import opened RuleEval

  const ET_COUNT := 21
  const ET_UNKNOWN_BIT: bv32 := 1 << ET_COUNT
  const ET_ALL_MASK: bv32 := (1 << ET_COUNT) - 1
  const ET_NO_CONSTRAINT: bv32 := ET_ALL_MASK | ET_UNKNOWN_BIT

  /** Position of a known event type in the table, or -1. */
  function EventTypeIdOf(eventType: string): (id: int)
    ensures -1 <= id < ET_COUNT
  {
    if eventType == "file.read" then 0
    else if eventType == "file.write" then 1
    else if eventType == "file.access" then 2
    else if eventType == "file.chmod" then 3
    else if eventType == "file.chown" then 4
    else if eventType == "file.unlink" then 5
    else if eventType == "file.rename" then 6
    else if eventType == "file.mmap" then 7
    else if eventType == "process.exec" then 8
    else if eventType == "network.connect" then 9
    else if eventType == "network.accept" then 10
    else if eventType == "network.bind" then 11
    else if eventType == "network.dns" then 12
    else if eventType == "priv.setuid" then 13
    else if eventType == "priv.setgid" then 14
    else if eventType == "priv.capset" then 15
    else if eventType == "priv.ptrace" then 16
    else if eventType == "priv.module_load" then 17
    else if eventType == "ns.mount" then 18
    else if eventType == "ns.unshare" then 19
    else if eventType == "ns.setns" then 20
    else -1
  }

  /** The bit an event of this type is tested with; types outside the table share one bit. */
  function EventTypeBit(eventType: string): bv32 {
    var id := EventTypeIdOf(eventType);
    if id >= 0 then 1 << id else ET_UNKNOWN_BIT
  }

  function MaskOr(a: bv32, b: bv32): bv32 { a | b }

  function MaskAnd(a: bv32, b: bv32): bv32 { a & b }

  function ItemsMask(items: seq<Operand>): bv32 {
    if items == [] then 0 else MaskOr(EventTypeBit(Spelling(items[0])), ItemsMask(items[1..]))
  }

  /** Event types an event must have for the condition to hold, as a bit mask. */
  function NecessaryMask(c: Cond): bv32
    decreases c, 1
  {
    match c
    case Compare(op, lhs, rhs) =>
      if lhs != Field(EventType) then ET_NO_CONSTRAINT
      else if op == Eq && rhs.Str? then EventTypeBit(rhs.str)
      else if op == In && rhs.List? then ItemsMask(rhs.list)
      else ET_NO_CONSTRAINT
    case And(children) => AllMask(children)
    case Or(children) => AnyMask(children)
    case Not(_) => ET_NO_CONSTRAINT
  }

  function AllMask(cs: seq<Cond>): bv32
    decreases cs, 0
  {
    if cs == [] then ET_NO_CONSTRAINT else MaskAnd(NecessaryMask(cs[0]), AllMask(cs[1..]))
  }

  function AnyMask(cs: seq<Cond>): bv32
    decreases cs, 0
  {
    if cs == [] then 0 else MaskOr(NecessaryMask(cs[0]), AnyMask(cs[1..]))
  }

  lemma BitIsSingle(eventType: string)
    ensures var bit := EventTypeBit(eventType); bit != 0 && bit & (bit - 1) == 0 && bit & ET_NO_CONSTRAINT != 0
  {
    hide EventTypeIdOf;
    ShiftIsSingle(if EventTypeIdOf(eventType) >= 0 then EventTypeIdOf(eventType) else ET_COUNT);
  }

  lemma ShiftIsSingle(id: nat)
    requires id <= ET_COUNT
    ensures var bit: bv32 := 1 << id; bit != 0 && bit & (bit - 1) == 0 && bit & ET_NO_CONSTRAINT != 0
  {
  }

  /** The prefilter's test: the event's bit is in the mask. */
  predicate Passes(mask: bv32, ev: EventView) {
    mask & EventTypeBit(ev.eventType) != 0
  }

  lemma NoConstraintPasses(ev: EventView)
    ensures Passes(ET_NO_CONSTRAINT, ev)
  {
    hide EventTypeBit;
    BitIsSingle(ev.eventType);
  }

  lemma OwnBitPasses(ev: EventView)
    ensures Passes(EventTypeBit(ev.eventType), ev)
  {
    hide EventTypeBit;
    BitIsSingle(ev.eventType);
  }

  lemma BothPass(a: bv32, b: bv32, ev: EventView)
    requires Passes(a, ev) && Passes(b, ev)
    ensures Passes(MaskAnd(a, b), ev)
  {
    hide EventTypeBit;
    BitIsSingle(ev.eventType);
    AndKeepsBit(a, b, EventTypeBit(ev.eventType));
  }

  lemma AndKeepsBit(a: bv32, b: bv32, bit: bv32)
    requires bit & (bit - 1) == 0 && a & bit != 0 && b & bit != 0
    ensures (a & b) & bit != 0
  {
  }

  lemma LeftPasses(a: bv32, b: bv32, ev: EventView)
    requires Passes(a, ev)
    ensures Passes(MaskOr(a, b), ev)
  {
    hide EventTypeBit;
    OrKeepsBit(a, b, EventTypeBit(ev.eventType));
  }

  lemma RightPasses(a: bv32, b: bv32, ev: EventView)
    requires Passes(b, ev)
    ensures Passes(MaskOr(a, b), ev)
  {
    hide EventTypeBit;
    OrKeepsBit(b, a, EventTypeBit(ev.eventType));
  }

  lemma OrKeepsBit(a: bv32, b: bv32, bit: bv32)
    requires a & bit != 0
    ensures (a | b) & bit != 0 && (b | a) & bit != 0
  {
  }

  /** An event type found in a list passes the list's mask and is spelled by some element. */
  lemma {:induction false} ItemsMaskSound(ev: EventView, items: seq<Operand>)
    requires AnyItem(ev, EventType, Eq, items)
    ensures Passes(ItemsMask(items), ev)
    ensures exists i | 0 <= i < |items| :: Spelling(items[i]) == ev.eventType
  {
    hide MaskOr;
    hide MaskAnd;
    hide EventTypeBit;
    hide Passes;
    if FieldTest(ev, EventType, Eq, ItemValue(items[0])) {
      assert Spelling(items[0]) == ev.eventType;
      OwnBitPasses(ev);
      LeftPasses(EventTypeBit(Spelling(items[0])), ItemsMask(items[1..]), ev);
    } else {
      ItemsMaskSound(ev, items[1..]);
      RightPasses(EventTypeBit(Spelling(items[0])), ItemsMask(items[1..]), ev);
      var i :| 0 <= i < |items[1..]| && Spelling(items[1..][i]) == ev.eventType;
      assert items[i + 1] == items[1..][i];
    }
  }

  /** A condition that holds lets the event's type through its mask. */
  lemma {:induction false} MaskSound(ev: EventView, c: Cond)
    requires Eval(ev, c)
    ensures Passes(NecessaryMask(c), ev)
    decreases c, 1
  {
    hide MaskOr;
    hide MaskAnd;
    hide EvalCompare;
    hide Passes;
    NoConstraintPasses(ev);
    match c
    case And(children) => AllMaskSound(ev, children);
    case Or(children) => AnyMaskSound(ev, children);
    case Not(_) =>
    case Compare(op, lhs, rhs) => CompareMaskSound(ev, op, lhs, rhs);
  }

  lemma CompareMaskSound(ev: EventView, op: CmpOp, lhs: Operand, rhs: Operand)
    requires EvalCompare(ev, op, lhs, rhs)
    ensures Passes(NecessaryMask(Compare(op, lhs, rhs)), ev)
  {
    hide MaskOr;
    hide MaskAnd;
    hide EventTypeBit;
    hide Passes;
    NoConstraintPasses(ev);
    if lhs == Field(EventType) && op == Eq && rhs.Str? {
      assert rhs.str == ev.eventType;
      OwnBitPasses(ev);
    } else if lhs == Field(EventType) && op == In && rhs.List? {
      ItemsMaskSound(ev, rhs.list);
    }
  }

  lemma {:induction false} AllMaskSound(ev: EventView, cs: seq<Cond>)
    requires EvalAll(ev, cs)
    ensures Passes(AllMask(cs), ev)
    decreases cs, 0
  {
    hide MaskOr;
    hide MaskAnd;
    hide Passes;
    hide NecessaryMask;
    if cs == [] {
      NoConstraintPasses(ev);
    } else {
      MaskSound(ev, cs[0]);
      AllMaskSound(ev, cs[1..]);
      BothPass(NecessaryMask(cs[0]), AllMask(cs[1..]), ev);
    }
  }

  lemma {:induction false} AnyMaskSound(ev: EventView, cs: seq<Cond>)
    requires EvalAny(ev, cs)
    ensures Passes(AnyMask(cs), ev)
    decreases cs, 0
  {
    hide MaskOr;
    hide MaskAnd;
    hide Passes;
    hide NecessaryMask;
    if Eval(ev, cs[0]) {
      MaskSound(ev, cs[0]);
      LeftPasses(NecessaryMask(cs[0]), AnyMask(cs[1..]), ev);
    } else {
      AnyMaskSound(ev, cs[1..]);
      RightPasses(NecessaryMask(cs[0]), AnyMask(cs[1..]), ev);
    }
  }

  // ----- category buckets -----

  datatype Bucket = FileBucket | ProcessBucket | NetworkBucket | DnsBucket | PrivBucket | NsBucket | AllBucket

  /** Index of the first dot, or the length. */
  function DotAt(s: string): (n: nat)
    ensures n <= |s|
    ensures n < |s| ==> s[n] == '.'
  {
    if s == [] || s[0] == '.' then 0 else 1 + DotAt(s[1..])
  }

  function BucketOfEventType(eventType: string): Bucket {
    var dot := DotAt(eventType);
    var first := eventType[..dot];
    if first == "file" then FileBucket
    else if first == "process" then ProcessBucket
    else if first == "priv" then PrivBucket
    else if first == "ns" then NsBucket
    else if first == "dns" then DnsBucket
    else if first == "network" then
      var second := if dot == |eventType| then "" else eventType[dot + 1..];
      if second == "dns" then DnsBucket else NetworkBucket
    else AllBucket
  }

  /** The bucket that one comparison pins the event to, if any. */
  function BucketOfCompare(c: Cond): Option<Bucket> {
    if !c.Compare? || c.lhs != Field(EventType) then None
    else if c.op == Eq && c.rhs.Str? then
      var b := BucketOfEventType(c.rhs.str);
      if b == AllBucket then None else Some(b)
    else if c.op == In && c.rhs.List? && c.rhs.list != [] then
      var b := BucketOfEventType(Spelling(c.rhs.list[0]));
      if b == AllBucket then None
      else if forall i | 0 <= i < |c.rhs.list| :: BucketOfEventType(Spelling(c.rhs.list[i])) == b then Some(b)
      else None
    else None
  }

  /** Scan of the children of a top-level `and`; two different buckets fall back to the common one. */
  function ScanBuckets(found: Bucket, cs: seq<Cond>): Bucket
    decreases cs
  {
    if cs == [] then found
    else
      match BucketOfCompare(cs[0])
      case None => ScanBuckets(found, cs[1..])
      case Some(b) => if found != AllBucket && found != b then AllBucket else ScanBuckets(b, cs[1..])
  }

  function ExtractBucket(c: Cond): Bucket {
    if c.And? then ScanBuckets(AllBucket, c.children)
    else
      match BucketOfCompare(c)
      case Some(b) => b
      case None => AllBucket
  }

  lemma CompareBucketSound(ev: EventView, c: Cond)
    requires Eval(ev, c) && BucketOfCompare(c).Some?
    ensures BucketOfEventType(ev.eventType) == BucketOfCompare(c).value
  {
    hide BucketOfEventType;
    if c.op == In {
      ItemsMaskSound(ev, c.rhs.list);
    }
  }

  lemma {:induction false} ScanBucketsSound(ev: EventView, found: Bucket, cs: seq<Cond>)
    requires EvalAll(ev, cs)
    requires found != AllBucket ==> found == BucketOfEventType(ev.eventType)
    ensures ScanBuckets(found, cs) != AllBucket ==> ScanBuckets(found, cs) == BucketOfEventType(ev.eventType)
    decreases cs
  {
    hide BucketOfEventType;
    hide BucketOfCompare;
    hide Eval;
    if cs != [] {
      match BucketOfCompare(cs[0])
      case None => ScanBucketsSound(ev, found, cs[1..]);
      case Some(b) =>
        CompareBucketSound(ev, cs[0]);
        ScanBucketsSound(ev, b, cs[1..]);
    }
  }

  /** A condition that holds was filed under the event's own bucket or under the common one. */
  lemma BucketSound(ev: EventView, c: Cond)
    requires Eval(ev, c)
    ensures ExtractBucket(c) == AllBucket || ExtractBucket(c) == BucketOfEventType(ev.eventType)
  {
    hide BucketOfEventType;
    if c.And? {
      ScanBucketsSound(ev, AllBucket, c.children);
    } else if BucketOfCompare(c).Some? {
      CompareBucketSound(ev, c);
    }
  }
}
