/** The rule language's data: field table and condition trees (src/detect/rule.hpp, with the
    tables of src/detect/condition_parser.cpp). */
module RuleAst {
  import opened Options

  datatype FieldId =
    | EventType | ProcessPid | ProcessPpid | ProcessUid | ProcessGid | ProcessComm | ProcessExe | AncestorPid
    | AncestorComm | AncestorExe | ContainerId | FilePath | FileAction | FileNewMode | FileIno | FileMask
    | FileNewUid | FileNewGid | NetSip | NetDip | NetFamily | NetProtocol | NetSport | NetDport | DnsDomain
    | DnsQtype | PrivTargetId | PrivEffectiveLo | PrivTargetPid | PrivRequestValue | PrivRequest | PrivName
    | NsSource | NsTarget | NsFstype | NsNstypeName | NsTargetNs | NsFlags | NsFd | NsNstype | NsNames

  datatype CmpOp = Eq | Ne | In | Contains | StartsWith

  /** A comparison operand; a number keeps its original spelling. */
  datatype Operand =
    | Field(field: FieldId)
    | Str(str: string)
    | Num(text: string, num: int)
    | List(list: seq<Operand>)

  datatype Cond =
    | Or(children: seq<Cond>)
    | And(children: seq<Cond>)
    | Not(child: Cond)
    | Compare(op: CmpOp, lhs: Operand, rhs: Operand)

  predicate IsNumber(id: FieldId) {
    match id
    case ProcessPid | ProcessPpid | ProcessUid | ProcessGid | AncestorPid | FileIno
       | FileMask | FileNewUid | FileNewGid | NetFamily | NetProtocol | NetSport
       | NetDport | DnsQtype | PrivTargetId | PrivEffectiveLo | PrivTargetPid | PrivRequestValue
       | NsFlags | NsFd | NsNstype => true
    case _ => false
  }

  predicate IsArrayElem(id: FieldId) {
    id == AncestorPid || id == AncestorComm || id == AncestorExe || id == NsNames
  }

  /** The path a rule writes for a field. */
  function PathOf(id: FieldId): string {
    match id
    case EventType => "event_type"
    case ProcessPid => "process.pid"
    case ProcessPpid => "process.ppid"
    case ProcessUid => "process.uid"
    case ProcessGid => "process.gid"
    case ProcessComm => "process.comm"
    case ProcessExe => "process.exe"
    case AncestorPid => "process.ancestors[].pid"
    case AncestorComm => "process.ancestors[].comm"
    case AncestorExe => "process.ancestors[].exe"
    case ContainerId => "container.container_id"
    case FilePath => "file.path"
    case FileAction => "file.action"
    case FileNewMode => "file.new_mode"
    case FileIno => "file.ino"
    case FileMask => "file.mask"
    case FileNewUid => "file.new_uid"
    case FileNewGid => "file.new_gid"
    case NetSip => "network.sip"
    case NetDip => "network.dip"
    case NetFamily => "network.family"
    case NetProtocol => "network.protocol"
    case NetSport => "network.sport"
    case NetDport => "network.dport"
    case DnsDomain => "dns.domain"
    case DnsQtype => "dns.qtype"
    case PrivTargetId => "priv.target_id"
    case PrivEffectiveLo => "priv.effective_lo"
    case PrivTargetPid => "priv.target_pid"
    case PrivRequestValue => "priv.request_value"
    case PrivRequest => "priv.request"
    case PrivName => "priv.name"
    case NsSource => "ns.source"
    case NsTarget => "ns.target"
    case NsFstype => "ns.fstype"
    case NsNstypeName => "ns.nstype_name"
    case NsTargetNs => "ns.target_ns"
    case NsFlags => "ns.flags"
    case NsFd => "ns.fd"
    case NsNstype => "ns.nstype"
    case NsNames => "ns.names[]"
  }

  const FIELD_COUNT := 41

  /** The table in source order. */
  function FieldAt(i: nat): FieldId
    requires i < FIELD_COUNT
  {
    match i
    case 0 => EventType
    case 1 => ProcessPid
    case 2 => ProcessPpid
    case 3 => ProcessUid
    case 4 => ProcessGid
    case 5 => ProcessComm
    case 6 => ProcessExe
    case 7 => AncestorPid
    case 8 => AncestorComm
    case 9 => AncestorExe
    case 10 => ContainerId
    case 11 => FilePath
    case 12 => FileAction
    case 13 => FileNewMode
    case 14 => FileIno
    case 15 => FileMask
    case 16 => FileNewUid
    case 17 => FileNewGid
    case 18 => NetSip
    case 19 => NetDip
    case 20 => NetFamily
    case 21 => NetProtocol
    case 22 => NetSport
    case 23 => NetDport
    case 24 => DnsDomain
    case 25 => DnsQtype
    case 26 => PrivTargetId
    case 27 => PrivEffectiveLo
    case 28 => PrivTargetPid
    case 29 => PrivRequestValue
    case 30 => PrivRequest
    case 31 => PrivName
    case 32 => NsSource
    case 33 => NsTarget
    case 34 => NsFstype
    case 35 => NsNstypeName
    case 36 => NsTargetNs
    case 37 => NsFlags
    case 38 => NsFd
    case 39 => NsNstype
    case _ => NsNames
  }

  /** First table entry from index `i` on whose path is the given text. */
  function LookupFrom(path: string, i: nat): (r: Option<FieldId>)
    requires i <= FIELD_COUNT
    ensures r.Some? ==> PathOf(r.value) == path
    ensures r.None? ==> forall j | i <= j < FIELD_COUNT :: PathOf(FieldAt(j)) != path
    decreases FIELD_COUNT - i
  {
    hide PathOf;
    hide FieldAt;
    if i == FIELD_COUNT then None
    else if path == PathOf(FieldAt(i)) then Some(FieldAt(i))
    else LookupFrom(path, i + 1)
  }

  function FieldIdFromPath(path: string): (r: Option<FieldId>)
    ensures r.Some? ==> PathOf(r.value) == path
  {
    LookupFrom(path, 0)
  }

  /** Recognises a table path by its length and one or two letters; used to show that no two
      fields share a path. */
  function Identify(s: string): FieldId {
    if |s| == 5 then NsFd else
    if |s| == 8 then
      match s[0] { case 'f' => FileIno case _ => NsFlags }
    else
    if |s| == 9 then
      match s[5] {
        case 'p' => FilePath case 'm' => FileMask case 'n' => PrivName case 'u' => NsSource case 'r' => NsTarget
        case _ => match s[3] { case '.' => DnsQtype case 'f' => NsFstype case _ => NsNstype }
      }
    else
    if |s| == 10 then
      match s[0] { case 'e' => EventType case 'd' => DnsDomain case _ => NsNames }
    else
    if |s| == 11 then
      match s[8] { case 'p' => ProcessPid case 'u' => ProcessUid case 'g' => ProcessGid case 'e' => ProcessExe
          case 'i' => FileAction case 's' => NetSip case _ => NetDip }
    else
    if |s| == 12 then
      match s[9] { case 'p' => ProcessPpid case 'o' => ProcessComm case 'u' => FileNewUid case 'g' => FileNewGid
          case 'e' => PrivRequest case _ => NsTargetNs }
    else
    if |s| == 13 then
      match s[8] { case '_' => FileNewMode case 's' => NetSport case _ => NetDport }
    else
    if |s| == 14 then
      match s[1] { case 'e' => NetFamily case 'r' => PrivTargetId case _ => NsNstypeName }
    else
    if |s| == 15 then PrivTargetPid else
    if |s| == 16 then NetProtocol else
    if |s| == 17 then PrivEffectiveLo else
    if |s| == 18 then PrivRequestValue else
    if |s| == 22 then ContainerId else
    if |s| == 23 then
      match s[20] { case 'p' => AncestorPid case _ => AncestorExe }
    else
    if |s| == 24 then AncestorComm else
    EventType
  }

  function IndexOf(id: FieldId): nat {
    match id
    case EventType => 0
    case ProcessPid => 1
    case ProcessPpid => 2
    case ProcessUid => 3
    case ProcessGid => 4
    case ProcessComm => 5
    case ProcessExe => 6
    case AncestorPid => 7
    case AncestorComm => 8
    case AncestorExe => 9
    case ContainerId => 10
    case FilePath => 11
    case FileAction => 12
    case FileNewMode => 13
    case FileIno => 14
    case FileMask => 15
    case FileNewUid => 16
    case FileNewGid => 17
    case NetSip => 18
    case NetDip => 19
    case NetFamily => 20
    case NetProtocol => 21
    case NetSport => 22
    case NetDport => 23
    case DnsDomain => 24
    case DnsQtype => 25
    case PrivTargetId => 26
    case PrivEffectiveLo => 27
    case PrivTargetPid => 28
    case PrivRequestValue => 29
    case PrivRequest => 30
    case PrivName => 31
    case NsSource => 32
    case NsTarget => 33
    case NsFstype => 34
    case NsNstypeName => 35
    case NsTargetNs => 36
    case NsFlags => 37
    case NsFd => 38
    case NsNstype => 39
    case NsNames => 40
  }

  lemma IdentifyProcess(id: FieldId)
    requires 0 <= IndexOf(id) < 7
    ensures Identify(PathOf(id)) == id
  {
  }

  lemma IdentifyAncestor(id: FieldId)
    requires 7 <= IndexOf(id) < 9
    ensures Identify(PathOf(id)) == id
  {
  }

  lemma IdentifyAncestorExe(id: FieldId)
    requires 9 <= IndexOf(id) < 11
    ensures Identify(PathOf(id)) == id
  {
  }

  lemma IdentifyFile(id: FieldId)
    requires 11 <= IndexOf(id) < 18
    ensures Identify(PathOf(id)) == id
  {
  }

  lemma IdentifyNetwork(id: FieldId)
    requires 18 <= IndexOf(id) < 24
    ensures Identify(PathOf(id)) == id
  {
  }

  lemma IdentifyDnsPriv(id: FieldId)
    requires 24 <= IndexOf(id) < 28
    ensures Identify(PathOf(id)) == id
  {
  }

  lemma IdentifyPriv(id: FieldId)
    requires 28 <= IndexOf(id) < 32
    ensures Identify(PathOf(id)) == id
  {
  }

  lemma IdentifyNs(id: FieldId)
    requires 32 <= IndexOf(id) < 37
    ensures Identify(PathOf(id)) == id
  {
  }

  lemma IdentifyNsLast(id: FieldId)
    requires 37 <= IndexOf(id) < 41
    ensures Identify(PathOf(id)) == id
  {
  }

  /** No two fields share a path. */
  lemma IdentifyPath(id: FieldId)
    ensures Identify(PathOf(id)) == id
  {
    hide Identify;
    hide PathOf;
    var k := IndexOf(id);
    if k < 7 { IdentifyProcess(id); }
    else if k < 9 { IdentifyAncestor(id); }
    else if k < 11 { IdentifyAncestorExe(id); }
    else if k < 18 { IdentifyFile(id); }
    else if k < 24 { IdentifyNetwork(id); }
    else if k < 28 { IdentifyDnsPriv(id); }
    else if k < 32 { IdentifyPriv(id); }
    else if k < 37 { IdentifyNs(id); }
    else { IdentifyNsLast(id); }
  }

  lemma IndexInFirstHalf(id: FieldId)
    requires IndexOf(id) < 21
    ensures FieldAt(IndexOf(id)) == id
  {
  }

  lemma IndexInSecondHalf(id: FieldId)
    requires 21 <= IndexOf(id) < FIELD_COUNT
    ensures FieldAt(IndexOf(id)) == id
  {
  }

  lemma IndexInTable(id: FieldId)
    ensures IndexOf(id) < FIELD_COUNT && FieldAt(IndexOf(id)) == id
  {
    hide FieldAt;
    if IndexOf(id) < 21 {
      IndexInFirstHalf(id);
    } else {
      IndexInSecondHalf(id);
    }
  }

  /** Looking up a field's path finds that field. */
  lemma PathRoundTrip(id: FieldId)
    ensures FieldIdFromPath(PathOf(id)) == Some(id)
  {
    hide PathOf;
    hide FieldAt;
    hide Identify;
    IndexInTable(id);
    IdentifyPath(id);
    var found := FieldIdFromPath(PathOf(id));
    assert found.Some?;
    IdentifyPath(found.value);
  }
}
