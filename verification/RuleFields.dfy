/** What each field of docs/rule-dsl-v1.md reads, field by field: its path, and the component of
    the event that a comparison looks at. */
module RuleFields {
  import opened Options
  import opened RuleAst
  import opened RuleEval
  import opened RuleMeaning
  import opened ConditionWords
  import Grammar = ConditionGrammar

  /** The path names the field, and the field is this text of the event. */
  ghost predicate IsText(ev: EventView, path: string, id: FieldId, text: string, op: CmpOp, literal: Operand) {
    && FieldIdFromPath(path) == Some(id)
    && (Eval(ev, Compare(op, Field(id), literal)) <==> TextMeans(op, text, Spelling(literal)))
  }

  /** The path names the field, and the field is this number of the event, if it is there. */
  ghost predicate IsNumeric(ev: EventView, path: string, id: FieldId, has: bool, n: int, op: CmpOp, literal: Operand) {
    && FieldIdFromPath(path) == Some(id)
    && (Eval(ev, Compare(op, Field(id), literal)) <==> NumberMeans(op, if has then Some(n) else None, literal))
  }

  /** The path names the field, and the field is one of these texts. */
  ghost predicate IsOneText(ev: EventView, path: string, id: FieldId, texts: seq<string>, op: CmpOp, literal: Operand) {
    && FieldIdFromPath(path) == Some(id)
    && (Eval(ev, Compare(op, Field(id), literal)) <==>
          exists i | 0 <= i < |texts| :: TextMeans(op, texts[i], Spelling(literal)))
  }

  lemma TextField(ev: EventView, id: FieldId, text: string, op: CmpOp, literal: Operand)
    requires IsLiteral(literal) && !IsArrayElem(id) && !IsNumber(id)
    requires ResolveScalar(ev, id).value.str == text
    ensures IsText(ev, PathOf(id), id, text, op, literal)
  {
    hide PathOf;
    hide FieldIdFromPath;
    hide TextMeans;
    PathRoundTrip(id);
    ComparisonMeans(ev, id, op, literal);
    hide Eval;
  }

  lemma NumericField(ev: EventView, id: FieldId, has: bool, n: int, op: CmpOp, literal: Operand)
    requires IsLiteral(literal) && !IsArrayElem(id) && IsNumber(id)
    requires ResolveScalar(ev, id).value.has == has && ResolveScalar(ev, id).value.num == n
    ensures IsNumeric(ev, PathOf(id), id, has, n, op, literal)
  {
    hide PathOf;
    hide FieldIdFromPath;
    PathRoundTrip(id);
    ComparisonMeans(ev, id, op, literal);
    hide Eval;
  }

  // ----- the process and its container -----

  lemma ProcessTexts(ev: EventView, op: CmpOp, literal: Operand)
    requires IsLiteral(literal)
    ensures IsText(ev, "event_type", EventType, ev.eventType, op, literal)
    ensures IsText(ev, "process.comm", ProcessComm, ev.comm, op, literal)
    ensures IsText(ev, "process.exe", ProcessExe, ev.exe, op, literal)
    ensures IsText(ev, "container.container_id", ContainerId, ev.containerId, op, literal)
  {
    hide IsText;
    TextField(ev, EventType, ev.eventType, op, literal);
    TextField(ev, ProcessComm, ev.comm, op, literal);
    TextField(ev, ProcessExe, ev.exe, op, literal);
    TextField(ev, ContainerId, ev.containerId, op, literal);
  }

  lemma ProcessNumbers(ev: EventView, op: CmpOp, literal: Operand)
    requires IsLiteral(literal)
    ensures IsNumeric(ev, "process.pid", ProcessPid, true, ev.pid, op, literal)
    ensures IsNumeric(ev, "process.ppid", ProcessPpid, true, ev.ppid, op, literal)
    ensures IsNumeric(ev, "process.uid", ProcessUid, true, ev.uid, op, literal)
    ensures IsNumeric(ev, "process.gid", ProcessGid, true, ev.gid, op, literal)
  {
    hide IsNumeric;
    NumericField(ev, ProcessPid, true, ev.pid, op, literal);
    NumericField(ev, ProcessPpid, true, ev.ppid, op, literal);
    NumericField(ev, ProcessUid, true, ev.uid, op, literal);
    NumericField(ev, ProcessGid, true, ev.gid, op, literal);
  }

  // ----- files -----

  /** A text of a family that the event does not carry reads as empty. */
  function OrEmpty(has: bool, text: string): string {
    if has then text else ""
  }

  lemma FileTexts(ev: EventView, op: CmpOp, literal: Operand)
    requires IsLiteral(literal)
    ensures IsText(ev, "file.path", FilePath, OrEmpty(ev.hasFile, ev.filePath), op, literal)
    ensures IsText(ev, "file.action", FileAction, OrEmpty(ev.hasFile, ev.fileAction), op, literal)
    ensures IsText(ev, "file.new_mode", FileNewMode, OrEmpty(ev.hasFile, ev.fileNewMode), op, literal)
  {
    hide IsText;
    TextField(ev, FilePath, OrEmpty(ev.hasFile, ev.filePath), op, literal);
    TextField(ev, FileAction, OrEmpty(ev.hasFile, ev.fileAction), op, literal);
    TextField(ev, FileNewMode, OrEmpty(ev.hasFile, ev.fileNewMode), op, literal);
  }

  lemma FileNumbers(ev: EventView, op: CmpOp, literal: Operand)
    requires IsLiteral(literal)
    ensures IsNumeric(ev, "file.ino", FileIno, ev.hasFile, ev.fileIno, op, literal)
    ensures IsNumeric(ev, "file.mask", FileMask, ev.hasFile, ev.fileMask, op, literal)
    ensures IsNumeric(ev, "file.new_uid", FileNewUid, ev.hasFile, ev.fileNewUid, op, literal)
    ensures IsNumeric(ev, "file.new_gid", FileNewGid, ev.hasFile, ev.fileNewGid, op, literal)
  {
    hide IsNumeric;
    NumericField(ev, FileIno, ev.hasFile, ev.fileIno, op, literal);
    NumericField(ev, FileMask, ev.hasFile, ev.fileMask, op, literal);
    NumericField(ev, FileNewUid, ev.hasFile, ev.fileNewUid, op, literal);
    NumericField(ev, FileNewGid, ev.hasFile, ev.fileNewGid, op, literal);
  }

  // ----- the network -----

  lemma NetworkTexts(ev: EventView, op: CmpOp, literal: Operand)
    requires IsLiteral(literal)
    ensures IsText(ev, "network.sip", NetSip, OrEmpty(ev.hasNetwork, ev.netSip), op, literal)
    ensures IsText(ev, "network.dip", NetDip, OrEmpty(ev.hasNetwork, ev.netDip), op, literal)
  {
    hide IsText;
    TextField(ev, NetSip, OrEmpty(ev.hasNetwork, ev.netSip), op, literal);
    TextField(ev, NetDip, OrEmpty(ev.hasNetwork, ev.netDip), op, literal);
  }

  lemma NetworkNumbers(ev: EventView, op: CmpOp, literal: Operand)
    requires IsLiteral(literal)
    ensures IsNumeric(ev, "network.family", NetFamily, ev.hasNetwork, ev.netFamily, op, literal)
    ensures IsNumeric(ev, "network.protocol", NetProtocol, ev.hasNetwork, ev.netProtocol, op, literal)
  {
    hide IsNumeric;
    NumericField(ev, NetFamily, ev.hasNetwork, ev.netFamily, op, literal);
    NumericField(ev, NetProtocol, ev.hasNetwork, ev.netProtocol, op, literal);
  }

  lemma NetworkPorts(ev: EventView, op: CmpOp, literal: Operand)
    requires IsLiteral(literal)
    ensures IsNumeric(ev, "network.sport", NetSport, ev.hasNetwork, ev.netSport, op, literal)
    ensures IsNumeric(ev, "network.dport", NetDport, ev.hasNetwork, ev.netDport, op, literal)
  {
    hide IsNumeric;
    NumericField(ev, NetSport, ev.hasNetwork, ev.netSport, op, literal);
    NumericField(ev, NetDport, ev.hasNetwork, ev.netDport, op, literal);
  }

  lemma DnsFields(ev: EventView, op: CmpOp, literal: Operand)
    requires IsLiteral(literal)
    ensures IsText(ev, "dns.domain", DnsDomain, OrEmpty(ev.hasDns, ev.dnsDomain), op, literal)
    ensures IsNumeric(ev, "dns.qtype", DnsQtype, ev.hasDns, ev.dnsQtype, op, literal)
  {
    hide IsText;
    hide IsNumeric;
    TextField(ev, DnsDomain, OrEmpty(ev.hasDns, ev.dnsDomain), op, literal);
    NumericField(ev, DnsQtype, ev.hasDns, ev.dnsQtype, op, literal);
  }

  // ----- privileges -----

  lemma PrivTexts(ev: EventView, op: CmpOp, literal: Operand)
    requires IsLiteral(literal)
    ensures IsText(ev, "priv.request", PrivRequest, OrEmpty(ev.hasPriv, ev.privRequest), op, literal)
    ensures IsText(ev, "priv.name", PrivName, OrEmpty(ev.hasPriv, ev.privName), op, literal)
  {
    hide IsText;
    TextField(ev, PrivRequest, OrEmpty(ev.hasPriv, ev.privRequest), op, literal);
    TextField(ev, PrivName, OrEmpty(ev.hasPriv, ev.privName), op, literal);
  }

  lemma PrivNumbers(ev: EventView, op: CmpOp, literal: Operand)
    requires IsLiteral(literal)
    ensures IsNumeric(ev, "priv.target_id", PrivTargetId, ev.hasPriv, ev.privTargetId, op, literal)
    ensures IsNumeric(ev, "priv.effective_lo", PrivEffectiveLo, ev.hasPriv, ev.privEffectiveLo, op, literal)
  {
    hide IsNumeric;
    NumericField(ev, PrivTargetId, ev.hasPriv, ev.privTargetId, op, literal);
    NumericField(ev, PrivEffectiveLo, ev.hasPriv, ev.privEffectiveLo, op, literal);
  }

  lemma PrivRequests(ev: EventView, op: CmpOp, literal: Operand)
    requires IsLiteral(literal)
    ensures IsNumeric(ev, "priv.target_pid", PrivTargetPid, ev.hasPriv, ev.privTargetPid, op, literal)
    ensures IsNumeric(ev, "priv.request_value", PrivRequestValue, ev.hasPriv, ev.privRequestValue, op, literal)
  {
    hide IsNumeric;
    NumericField(ev, PrivTargetPid, ev.hasPriv, ev.privTargetPid, op, literal);
    NumericField(ev, PrivRequestValue, ev.hasPriv, ev.privRequestValue, op, literal);
  }

  // ----- namespaces -----

  lemma NamespaceTexts(ev: EventView, op: CmpOp, literal: Operand)
    requires IsLiteral(literal)
    ensures IsText(ev, "ns.source", NsSource, OrEmpty(ev.hasNs, ev.nsSource), op, literal)
    ensures IsText(ev, "ns.target", NsTarget, OrEmpty(ev.hasNs, ev.nsTarget), op, literal)
    ensures IsText(ev, "ns.fstype", NsFstype, OrEmpty(ev.hasNs, ev.nsFstype), op, literal)
  {
    hide IsText;
    TextField(ev, NsSource, OrEmpty(ev.hasNs, ev.nsSource), op, literal);
    TextField(ev, NsTarget, OrEmpty(ev.hasNs, ev.nsTarget), op, literal);
    TextField(ev, NsFstype, OrEmpty(ev.hasNs, ev.nsFstype), op, literal);
  }

  lemma NamespaceKinds(ev: EventView, op: CmpOp, literal: Operand)
    requires IsLiteral(literal)
    ensures IsText(ev, "ns.nstype_name", NsNstypeName, OrEmpty(ev.hasNs, ev.nsNstypeName), op, literal)
    ensures IsText(ev, "ns.target_ns", NsTargetNs, OrEmpty(ev.hasNs, ev.nsTargetNs), op, literal)
  {
    hide IsText;
    TextField(ev, NsNstypeName, OrEmpty(ev.hasNs, ev.nsNstypeName), op, literal);
    TextField(ev, NsTargetNs, OrEmpty(ev.hasNs, ev.nsTargetNs), op, literal);
  }

  lemma NamespaceNumbers(ev: EventView, op: CmpOp, literal: Operand)
    requires IsLiteral(literal)
    ensures IsNumeric(ev, "ns.flags", NsFlags, ev.hasNs, ev.nsFlags, op, literal)
    ensures IsNumeric(ev, "ns.fd", NsFd, ev.hasNs, ev.nsFd, op, literal)
    ensures IsNumeric(ev, "ns.nstype", NsNstype, ev.hasNs, ev.nsNstype, op, literal)
  {
    hide IsNumeric;
    NumericField(ev, NsFlags, ev.hasNs, ev.nsFlags, op, literal);
    NumericField(ev, NsFd, ev.hasNs, ev.nsFd, op, literal);
    NumericField(ev, NsNstype, ev.hasNs, ev.nsNstype, op, literal);
  }

  // ----- arrays -----

  /** The names of a namespace event, whatever its flag says. */
  lemma NamespaceNames(ev: EventView, op: CmpOp, literal: Operand)
    requires IsLiteral(literal)
    ensures IsOneText(ev, "ns.names[]", NsNames, ev.nsNames, op, literal)
  {
    ComparisonMeans(ev, NsNames, op, literal);
    PathRoundTrip(NsNames);
    hide Eval;
    hide TextMeans;
    hide FieldIdFromPath;
    assert forall i | 0 <= i < |ev.nsNames| :: Elements(ev, NsNames)[i] == Text(ev.nsNames[i]);
  }

  /** The ancestors' fields hold when some ancestor's does. */
  lemma AncestorFields(ev: EventView, op: CmpOp, literal: Operand)
    requires IsLiteral(literal)
    ensures FieldIdFromPath("process.ancestors[].pid") == Some(AncestorPid)
    ensures FieldIdFromPath("process.ancestors[].comm") == Some(AncestorComm)
    ensures FieldIdFromPath("process.ancestors[].exe") == Some(AncestorExe)
    ensures Eval(ev, Compare(op, Field(AncestorPid), literal)) <==>
              exists i | 0 <= i < |ev.ancestors| :: NumberMeans(op, Some(ev.ancestors[i].pid), literal)
    ensures Eval(ev, Compare(op, Field(AncestorComm), literal)) <==>
              exists i | 0 <= i < |ev.ancestors| :: TextMeans(op, ev.ancestors[i].comm, Spelling(literal))
    ensures Eval(ev, Compare(op, Field(AncestorExe), literal)) <==>
              exists i | 0 <= i < |ev.ancestors| :: TextMeans(op, ev.ancestors[i].exe, Spelling(literal))
  {
    hide TextMeans;
    hide NumberMeans;
    hide FieldIdFromPath;
    hide Eval;
    PathRoundTrip(AncestorPid);
    PathRoundTrip(AncestorComm);
    PathRoundTrip(AncestorExe);
    AnyAncestorField(ev, AncestorPid, op, literal);
    AnyAncestorField(ev, AncestorComm, op, literal);
    AnyAncestorField(ev, AncestorExe, op, literal);
  }

  lemma AnyAncestorField(ev: EventView, id: FieldId, op: CmpOp, literal: Operand)
    requires IsLiteral(literal) && (id == AncestorPid || id == AncestorComm || id == AncestorExe)
    ensures Eval(ev, Compare(op, Field(id), literal)) <==>
              exists i | 0 <= i < |ev.ancestors| :: ValueMeans(id, AncestorValue(ev.ancestors[i], id), op, literal)
  {
    hide Eval;
    hide ValueMeans;
    hide AncestorValue;
    ComparisonMeans(ev, id, op, literal);
    assert forall i | 0 <= i < |ev.ancestors| :: Elements(ev, id)[i] == AncestorValue(ev.ancestors[i], id);
  }

  // ----- from the rule's text to the event -----

  /** A rule that asks for a file by a plain word holds on an event exactly when the event is about
      a file of that path. */
  lemma FileRuleHoldsIff(ev: EventView, word: string)
    requires PlainWord(word)
    ensures Grammar.Parse("file.path = " + word).Ok?
    ensures Eval(ev, Grammar.Parse("file.path = " + word).value) <==> ev.hasFile && ev.filePath == word
  {
    hide Eval;
    hide PlainWord;
    NotEmptyWord(word);
    FilePathIs(word);
    FileTexts(ev, Eq, Str(word));
  }

  lemma NotEmptyWord(word: string)
    requires PlainWord(word)
    ensures word != ""
  {
  }

  /** A rule that asks for an executable by a plain word. */
  lemma ExecutableRuleHoldsIff(ev: EventView, word: string)
    requires PlainWord(word)
    ensures Grammar.Parse("process.exe" + " = " + word).Ok?
    ensures Eval(ev, Grammar.Parse("process.exe" + " = " + word).value) <==> ev.exe == word
  {
    hide Eval;
    hide PlainWord;
    ProcessTexts(ev, Eq, Str(word));
    EqualsWord("process.exe", ProcessExe, word);
  }

  // ----- comparisons with no literal on the right -----

  /** Both fields are scalar, present and of one kind. */
  predicate Comparable(ev: EventView, a: FieldId, b: FieldId) {
    && !IsArrayElem(a) && !IsArrayElem(b) && IsNumber(a) == IsNumber(b)
    && ResolveScalar(ev, a).value.has && ResolveScalar(ev, b).value.has
  }

  predicate SameValue(v: FieldVal, w: FieldVal, number: bool) {
    if number then v.num == w.num else v.str == w.str
  }

  lemma FieldsCompare(ev: EventView, op: CmpOp, a: FieldId, b: FieldId)
    ensures Eval(ev, Compare(op, Field(a), Field(b))) <==>
              && Comparable(ev, a, b) && (op == Eq || op == Ne)
              && (op == Eq <==> SameValue(ResolveScalar(ev, a).value, ResolveScalar(ev, b).value, IsNumber(a)))
  {
    hide ResolveScalar;
    hide IsNumber;
    hide IsArrayElem;
  }

  /** The field equals the literal. */
  ghost predicate Equals(ev: EventView, id: FieldId, literal: Operand) {
    IsLiteral(literal) && Eval(ev, Compare(Eq, Field(id), literal))
  }

  lemma EqualsIff(ev: EventView, id: FieldId, literal: Operand)
    requires !IsArrayElem(id)
    ensures var v := ResolveScalar(ev, id).value;
      Equals(ev, id, literal) ==
        (&& IsLiteral(literal) && v.has
         && if IsNumber(id) then literal.Num? && v.num == literal.num else v.str == Spelling(literal))
  {
    hide ResolveScalar;
    if IsLiteral(literal) {
      ComparisonMeans(ev, id, Eq, literal);
    }
    hide Eval;
  }

  /** Two fields are equal if and only if both are scalar, of one kind, and equal some literal both. */
  lemma FieldsEqualIff(ev: EventView, a: FieldId, b: FieldId)
    ensures Eval(ev, Compare(Eq, Field(a), Field(b))) ==
              (&& !IsArrayElem(a) && !IsArrayElem(b) && IsNumber(a) == IsNumber(b)
               && exists literal :: Equals(ev, a, literal) && Equals(ev, b, literal))
  {
    hide *;
    FieldsCompare(ev, Eq, a, b);
    ComparableIff(ev, a, b);
    if !IsArrayElem(a) && !IsArrayElem(b) && IsNumber(a) == IsNumber(b) {
      var v, w, number := ResolveScalar(ev, a).value, ResolveScalar(ev, b).value, IsNumber(a);
      if v.has && w.has && SameValue(v, w, number) {
        SomeLiteral(ev, a, b);
      }
      forall literal | Equals(ev, a, literal) && Equals(ev, b, literal)
        ensures v.has && w.has && SameValue(v, w, number)
      {
        EqualsIff(ev, a, literal);
        EqualsIff(ev, b, literal);
        SameValueIff(v, w, number);
      }
    }
  }

  lemma SomeLiteral(ev: EventView, a: FieldId, b: FieldId)
    requires !IsArrayElem(a) && !IsArrayElem(b) && IsNumber(a) == IsNumber(b)
    requires ResolveScalar(ev, a).value.has && ResolveScalar(ev, b).value.has
    requires SameValue(ResolveScalar(ev, a).value, ResolveScalar(ev, b).value, IsNumber(a))
    ensures exists literal :: Equals(ev, a, literal) && Equals(ev, b, literal)
  {
    hide ResolveScalar;
    hide Equals;
    hide IsNumber;
    hide IsArrayElem;
    var v := ResolveScalar(ev, a).value;
    var literal := if IsNumber(a) then Num("", v.num) else Str(v.str);
    EqualsIff(ev, a, literal);
    EqualsIff(ev, b, literal);
  }

  lemma SameValueIff(v: FieldVal, w: FieldVal, number: bool)
    ensures SameValue(v, w, number) <==> if number then v.num == w.num else v.str == w.str
  {
  }

  ghost predicate HasValue(ev: EventView, id: FieldId) {
    !IsArrayElem(id) && exists literal :: Equals(ev, id, literal)
  }

  lemma HasValueIff(ev: EventView, id: FieldId)
    requires !IsArrayElem(id)
    ensures HasValue(ev, id) <==> ResolveScalar(ev, id).value.has
  {
    hide ResolveScalar;
    hide Equals;
    hide IsNumber;
    var v := ResolveScalar(ev, id).value;
    if v.has {
      var literal := if IsNumber(id) then Num("", v.num) else Str(v.str);
      EqualsIff(ev, id, literal);
    }
    forall literal | Equals(ev, id, literal)
      ensures v.has
    {
      EqualsIff(ev, id, literal);
    }
  }

  /** Two fields differ if and only if both have a value, of one kind, and are not equal; no other
      operator holds between two fields. */
  lemma FieldsDifferIff(ev: EventView, op: CmpOp, a: FieldId, b: FieldId)
    requires op != Eq
    ensures Eval(ev, Compare(op, Field(a), Field(b))) <==>
              && op == Ne && HasValue(ev, a) && HasValue(ev, b) && IsNumber(a) == IsNumber(b)
              && !Eval(ev, Compare(Eq, Field(a), Field(b)))
  {
    hide *;
    FieldsCompare(ev, op, a, b);
    FieldsCompare(ev, Eq, a, b);
    ComparableIff(ev, a, b);
    if !IsArrayElem(a) {
      HasValueIff(ev, a);
    } else {
      NoValue(ev, a);
    }
    if !IsArrayElem(b) {
      HasValueIff(ev, b);
    } else {
      NoValue(ev, b);
    }
  }

  lemma ComparableIff(ev: EventView, a: FieldId, b: FieldId)
    ensures Comparable(ev, a, b) <==>
              && !IsArrayElem(a) && !IsArrayElem(b) && IsNumber(a) == IsNumber(b)
              && ResolveScalar(ev, a).value.has && ResolveScalar(ev, b).value.has
  {
  }

  lemma NoValue(ev: EventView, id: FieldId)
    requires IsArrayElem(id)
    ensures !HasValue(ev, id)
  {
  }

  /** With the literal on the left a comparison means what it means the other way round, for scalar
      fields, the two tests of equality and matching kinds; it is false for everything else. */
  lemma LiteralFirstIff(ev: EventView, op: CmpOp, literal: Operand, id: FieldId)
    requires IsLiteral(literal)
    ensures Eval(ev, Compare(op, literal, Field(id))) <==>
              && (op == Eq || op == Ne) && !IsArrayElem(id) && literal.Num? == IsNumber(id)
              && Eval(ev, Compare(op, Field(id), literal))
  {
    hide ResolveScalar;
    if !IsArrayElem(id) {
      ComparisonMeans(ev, id, op, literal);
    }
  }

  /** Two literals are compared by kind, then by value. */
  lemma LiteralsIff(ev: EventView, op: CmpOp, a: Operand, b: Operand)
    requires IsLiteral(a) && IsLiteral(b)
    ensures Eval(ev, Compare(op, a, b)) <==>
              match (a, b)
              case (Str(s), Str(t)) => if op == Eq then s == t else op == Ne && s != t
              case (Num(_, m), Num(_, n)) => if op == Eq then m == n else op == Ne && m != n
              case _ => false
  {
  }
}
