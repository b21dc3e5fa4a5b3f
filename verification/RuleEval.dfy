/** Evaluation of condition trees on an event (src/detect/rule_engine.cpp). */
module RuleEval {
  import opened Options
  import opened RuleAst

  datatype AncestorView = AncestorView(pid: int, comm: string, exe: string)

  /** One event. A field family that the event does not carry has its flag cleared. */
  datatype EventView = EventView(
    eventType: string,
    pid: int, ppid: int, uid: int, gid: int, comm: string, exe: string, containerId: string,
    ancestors: seq<AncestorView>,
    hasFile: bool, filePath: string, fileAction: string, fileNewMode: string,
    fileIno: int, fileMask: int, fileNewUid: int, fileNewGid: int,
    hasNetwork: bool, netSip: string, netDip: string,
    netFamily: int, netProtocol: int, netSport: int, netDport: int,
    hasDns: bool, dnsDomain: string, dnsQtype: int,
    hasPriv: bool, privRequest: string, privName: string,
    privTargetId: int, privEffectiveLo: int, privTargetPid: int, privRequestValue: int,
    hasNs: bool, nsSource: string, nsTarget: string, nsFstype: string, nsNstypeName: string, nsTargetNs: string,
    nsFlags: int, nsFd: int, nsNstype: int, nsNames: seq<string>)

  datatype FieldVal = FieldVal(has: bool, num: int, str: string)

  function Text(s: string): FieldVal { FieldVal(true, 0, s) }
  function Number(n: int): FieldVal { FieldVal(true, n, "") }

  /** A text of an absent family reads as empty. */
  function TextOf(present: bool, s: string): FieldVal { FieldVal(true, 0, if present then s else "") }
  /** A number of an absent family is missing. */
  function NumberOf(present: bool, n: int): FieldVal { FieldVal(present, n, "") }

  /** The value of a field that is not an array element; `None` for those. */
  function ResolveScalar(ev: EventView, id: FieldId): (r: Option<FieldVal>)
    ensures r.None? <==> IsArrayElem(id)
    ensures r.Some? && !IsNumber(id) ==> r.value.has
  {
    match id
    case EventType => Some(Text(ev.eventType))
    case ProcessPid => Some(Number(ev.pid))
    case ProcessPpid => Some(Number(ev.ppid))
    case ProcessUid => Some(Number(ev.uid))
    case ProcessGid => Some(Number(ev.gid))
    case ProcessComm => Some(Text(ev.comm))
    case ProcessExe => Some(Text(ev.exe))
    case ContainerId => Some(Text(ev.containerId))
    case FilePath => Some(TextOf(ev.hasFile, ev.filePath))
    case FileAction => Some(TextOf(ev.hasFile, ev.fileAction))
    case FileNewMode => Some(TextOf(ev.hasFile, ev.fileNewMode))
    case FileIno => Some(NumberOf(ev.hasFile, ev.fileIno))
    case FileMask => Some(NumberOf(ev.hasFile, ev.fileMask))
    case FileNewUid => Some(NumberOf(ev.hasFile, ev.fileNewUid))
    case FileNewGid => Some(NumberOf(ev.hasFile, ev.fileNewGid))
    case NetSip => Some(TextOf(ev.hasNetwork, ev.netSip))
    case NetDip => Some(TextOf(ev.hasNetwork, ev.netDip))
    case NetFamily => Some(NumberOf(ev.hasNetwork, ev.netFamily))
    case NetProtocol => Some(NumberOf(ev.hasNetwork, ev.netProtocol))
    case NetSport => Some(NumberOf(ev.hasNetwork, ev.netSport))
    case NetDport => Some(NumberOf(ev.hasNetwork, ev.netDport))
    case DnsDomain => Some(TextOf(ev.hasDns, ev.dnsDomain))
    case DnsQtype => Some(NumberOf(ev.hasDns, ev.dnsQtype))
    case PrivRequest => Some(TextOf(ev.hasPriv, ev.privRequest))
    case PrivName => Some(TextOf(ev.hasPriv, ev.privName))
    case PrivTargetId => Some(NumberOf(ev.hasPriv, ev.privTargetId))
    case PrivEffectiveLo => Some(NumberOf(ev.hasPriv, ev.privEffectiveLo))
    case PrivTargetPid => Some(NumberOf(ev.hasPriv, ev.privTargetPid))
    case PrivRequestValue => Some(NumberOf(ev.hasPriv, ev.privRequestValue))
    case NsSource => Some(TextOf(ev.hasNs, ev.nsSource))
    case NsTarget => Some(TextOf(ev.hasNs, ev.nsTarget))
    case NsFstype => Some(TextOf(ev.hasNs, ev.nsFstype))
    case NsNstypeName => Some(TextOf(ev.hasNs, ev.nsNstypeName))
    case NsTargetNs => Some(TextOf(ev.hasNs, ev.nsTargetNs))
    case NsFlags => Some(NumberOf(ev.hasNs, ev.nsFlags))
    case NsFd => Some(NumberOf(ev.hasNs, ev.nsFd))
    case NsNstype => Some(NumberOf(ev.hasNs, ev.nsNstype))
    case AncestorPid | AncestorComm | AncestorExe | NsNames => None
  }

  /** The event carries the family that a field belongs to. */
  predicate Carries(ev: EventView, id: FieldId) {
    match id
    case FilePath | FileAction | FileNewMode | FileIno | FileMask | FileNewUid | FileNewGid => ev.hasFile
    case NetSip | NetDip | NetFamily | NetProtocol | NetSport | NetDport => ev.hasNetwork
    case DnsDomain | DnsQtype => ev.hasDns
    case PrivTargetId | PrivEffectiveLo | PrivTargetPid | PrivRequestValue | PrivRequest | PrivName => ev.hasPriv
    case NsSource | NsTarget | NsFstype | NsNstypeName | NsTargetNs | NsFlags | NsFd | NsNstype | NsNames => ev.hasNs
    case _ => true
  }

  /** A number is there exactly when its family is; a text of an absent family reads as empty. */
  lemma PresentIff(ev: EventView, id: FieldId)
    requires !IsArrayElem(id)
    ensures var v := ResolveScalar(ev, id).value;
      && (IsNumber(id) ==> (v.has <==> Carries(ev, id)))
      && (!IsNumber(id) ==> v.has && (!Carries(ev, id) ==> v.str == ""))
  {
  }

  datatype Value = Value(valid: bool, isNum: bool, num: int, str: string)

  const MISSING := Value(false, false, 0, "")

  function OperandValue(ev: EventView, op: Operand): Value {
    match op
    case Num(text, n) => Value(true, true, n, text)
    case Str(s) => Value(true, false, 0, s)
    case List(_) => MISSING
    case Field(id) =>
      match ResolveScalar(ev, id)
      case None => MISSING
      case Some(v) =>
        if IsNumber(id) then (if v.has then Value(true, true, v.num, "") else MISSING)
        else Value(true, false, 0, v.str)
  }

  predicate Contained(needle: string, hay: string) {
    exists i | 0 <= i <= |hay| :: needle <= hay[i..]
  }

  /** One field value against one literal. A missing number or a type mismatch is never true. */
  predicate FieldMatches(id: FieldId, v: FieldVal, op: CmpOp, lit: Value) {
    if IsNumber(id) then
      v.has && lit.valid && lit.isNum && ((op == Eq && v.num == lit.num) || (op == Ne && v.num != lit.num))
    else
      var s := if v.has then v.str else "";
      var l := if lit.valid then lit.str else "";
      match op
      case Eq => s == l
      case Ne => s != l
      case Contains => Contained(l, s)
      case StartsWith => l <= s
      case In => false
  }

  function AncestorValue(a: AncestorView, id: FieldId): FieldVal {
    match id
    case AncestorPid => Number(a.pid)
    case AncestorComm => Text(a.comm)
    case _ => Text(a.exe)
  }

  predicate AnyAncestor(ancestors: seq<AncestorView>, id: FieldId, op: CmpOp, lit: Value) {
    ancestors != []
    && (FieldMatches(id, AncestorValue(ancestors[0], id), op, lit) || AnyAncestor(ancestors[1..], id, op, lit))
  }

  predicate AnyName(names: seq<string>, op: CmpOp, lit: Value) {
    names != [] && (FieldMatches(NsNames, Text(names[0]), op, lit) || AnyName(names[1..], op, lit))
  }

  /** An array field matches when any element does. */
  predicate AnyElementMatches(ev: EventView, id: FieldId, op: CmpOp, lit: Value)
    requires IsArrayElem(id)
  {
    if id == NsNames then AnyName(ev.nsNames, op, lit) else AnyAncestor(ev.ancestors, id, op, lit)
  }

  /** A field, array or scalar, against one literal. */
  predicate FieldTest(ev: EventView, id: FieldId, op: CmpOp, lit: Value) {
    if IsArrayElem(id) then AnyElementMatches(ev, id, op, lit)
    else FieldMatches(id, ResolveScalar(ev, id).value, op, lit)
  }

  /** A list element as the source reads it: its spelling, and its number if it is one. */
  function ItemValue(item: Operand): Value {
    match item
    case Num(text, n) => Value(true, true, n, text)
    case Str(s) => Value(true, false, 0, s)
    case _ => Value(true, false, 0, "")
  }

  predicate AnyItem(ev: EventView, id: FieldId, op: CmpOp, items: seq<Operand>) {
    items != [] && (FieldTest(ev, id, op, ItemValue(items[0])) || AnyItem(ev, id, op, items[1..]))
  }

  predicate ValuesCompare(op: CmpOp, a: Value, b: Value) {
    && a.valid && b.valid && a.isNum == b.isNum
    && var same := if a.isNum then a.num == b.num else a.str == b.str;
       (op == Eq && same) || (op == Ne && !same)
  }

  predicate EvalCompare(ev: EventView, op: CmpOp, lhs: Operand, rhs: Operand) {
    if lhs.Field? && rhs.Field? then ValuesCompare(op, OperandValue(ev, lhs), OperandValue(ev, rhs))
    else if !lhs.Field? then !rhs.List? && ValuesCompare(op, OperandValue(ev, lhs), OperandValue(ev, rhs))
    else if rhs.List? then
      AnyItem(ev, lhs.field, if IsArrayElem(lhs.field) && op != In then op else Eq, rhs.list)
    else FieldTest(ev, lhs.field, op, OperandValue(ev, rhs))
  }

  predicate Eval(ev: EventView, c: Cond)
    decreases c, 1
  {
    match c
    case And(children) => EvalAll(ev, children)
    case Or(children) => EvalAny(ev, children)
    case Not(child) => !Eval(ev, child)
    case Compare(op, lhs, rhs) => EvalCompare(ev, op, lhs, rhs)
  }

  predicate EvalAll(ev: EventView, cs: seq<Cond>)
    decreases cs, 0
  {
    cs == [] || (Eval(ev, cs[0]) && EvalAll(ev, cs[1..]))
  }

  predicate EvalAny(ev: EventView, cs: seq<Cond>)
    decreases cs, 0
  {
    cs != [] && (Eval(ev, cs[0]) || EvalAny(ev, cs[1..]))
  }

  lemma {:induction false} EvalAllMeaning(ev: EventView, cs: seq<Cond>)
    ensures EvalAll(ev, cs) <==> forall i | 0 <= i < |cs| :: Eval(ev, cs[i])
  {
    if cs != [] {
      EvalAllMeaning(ev, cs[1..]);
      assert forall i | 0 < i < |cs| :: cs[i] == cs[1..][i - 1];
    }
  }

  lemma {:induction false} EvalAnyMeaning(ev: EventView, cs: seq<Cond>)
    ensures EvalAny(ev, cs) <==> exists i | 0 <= i < |cs| :: Eval(ev, cs[i])
  {
    if cs != [] {
      EvalAnyMeaning(ev, cs[1..]);
      assert forall i | 0 < i < |cs| :: cs[i] == cs[1..][i - 1];
    }
  }

  // ----- `in` as a disjunction -----

  predicate IsLiteral(op: Operand) {
    op.Str? || op.Num?
  }

  /** The spelling of a literal operand. */
  function Spelling(op: Operand): string {
    match op
    case Str(s) => s
    case Num(text, _) => text
    case _ => ""
  }

  /** `lhs in (v1, ..., vn)` written as `lhs = v1 or ... or lhs = vn`. */
  function InAsEqualities(lhs: Operand, items: seq<Operand>): seq<Cond> {
    if items == [] then [] else [Compare(Eq, lhs, items[0])] + InAsEqualities(lhs, items[1..])
  }

  lemma {:induction false} ItemsAsEqualities(ev: EventView, id: FieldId, items: seq<Operand>)
    requires forall i | 0 <= i < |items| :: IsLiteral(items[i])
    ensures AnyItem(ev, id, Eq, items) <==> EvalAny(ev, InAsEqualities(Field(id), items))
  {
    hide ResolveScalar;
    hide FieldTest;
    if items != [] {
      ItemsAsEqualities(ev, id, items[1..]);
      var eqs := InAsEqualities(Field(id), items);
      assert eqs[0] == Compare(Eq, Field(id), items[0]) && eqs[1..] == InAsEqualities(Field(id), items[1..]);
    }
  }

  /** The value of a literal operand does not depend on the event. */
  predicate SameLiteral(a: Operand, b: Operand)
    requires IsLiteral(a) && IsLiteral(b)
  {
    a.Num? == b.Num? && (if a.Num? then a.num == b.num else a.str == b.str)
  }

  lemma {:induction false} LiteralEqualities(ev: EventView, lhs: Operand, items: seq<Operand>)
    requires IsLiteral(lhs) && forall i | 0 <= i < |items| :: IsLiteral(items[i])
    ensures EvalAny(ev, InAsEqualities(lhs, items)) <==> exists i | 0 <= i < |items| :: SameLiteral(lhs, items[i])
  {
    if items != [] {
      LiteralEqualities(ev, lhs, items[1..]);
      var eqs := InAsEqualities(lhs, items);
      assert eqs[0] == Compare(Eq, lhs, items[0]) && eqs[1..] == InAsEqualities(lhs, items[1..]);
      assert forall i | 0 < i < |items| :: items[i] == items[1..][i - 1];
    }
  }

  /** The rewriting preserves evaluation exactly when the left side is a field, scalar, array
      or missing, or a literal that equals no list element: a literal is never `in` a list. */
  lemma InRewrites(ev: EventView, lhs: Operand, items: seq<Operand>)
    requires !lhs.List? && forall i | 0 <= i < |items| :: IsLiteral(items[i])
    ensures (Eval(ev, Compare(In, lhs, List(items))) == Eval(ev, Or(InAsEqualities(lhs, items))))
      <==> (lhs.Field? || !exists i | 0 <= i < |items| :: SameLiteral(lhs, items[i]))
  {
    hide ResolveScalar;
    if lhs.Field? {
      ItemsAsEqualities(ev, lhs.field, items);
    } else {
      LiteralEqualities(ev, lhs, items);
    }
  }
}
