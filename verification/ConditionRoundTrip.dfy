/** Parsing undoes printing, and the parser returns exactly the well-formed trees. */
module ConditionRoundTrip {
  import opened Decimal
  import opened Options
  import opened RuleAst
  import opened ConditionLexer
  import opened ConditionGrammar
  import opened ConditionPrinter

  // ----- facts about the field table -----

  predicate FieldShaped(s: string) {
    s != [] && AllBare(s) && LooksLikeField(s)
  }

  lemma ProcessBare()
    ensures AllBare("event_type")
    ensures AllBare("process.pid")
    ensures AllBare("process.ppid")
    ensures AllBare("process.uid")
  {
  }

  lemma ProcessNamesBare()
    ensures AllBare("process.gid")
    ensures AllBare("process.comm")
    ensures AllBare("process.exe")
  {
  }

  lemma AncestorBare()
    ensures AllBare("process.ancestors[].pid")
    ensures AllBare("process.ancestors[].comm")
  {
  }

  lemma AncestorExeBare()
    ensures AllBare("process.ancestors[].exe")
  {
  }

  lemma ContainerBare()
    ensures AllBare("container.container_id")
  {
  }

  lemma FileBare()
    ensures AllBare("file.path")
    ensures AllBare("file.action")
    ensures AllBare("file.new_mode")
    ensures AllBare("file.ino")
  {
  }

  lemma FileOwnerBare()
    ensures AllBare("file.mask")
    ensures AllBare("file.new_uid")
    ensures AllBare("file.new_gid")
  {
  }

  lemma NetworkBare()
    ensures AllBare("network.sip")
    ensures AllBare("network.dip")
    ensures AllBare("network.family")
  {
  }

  lemma NetworkPortsBare()
    ensures AllBare("network.protocol")
    ensures AllBare("network.sport")
    ensures AllBare("network.dport")
  {
  }

  lemma DnsBare()
    ensures AllBare("dns.domain")
    ensures AllBare("dns.qtype")
  {
  }

  lemma PrivTargetBare()
    ensures AllBare("priv.target_id")
    ensures AllBare("priv.effective_lo")
    ensures AllBare("priv.target_pid")
  {
  }

  lemma PrivBare()
    ensures AllBare("priv.request_value")
    ensures AllBare("priv.request")
    ensures AllBare("priv.name")
  {
  }

  lemma NsBare()
    ensures AllBare("ns.source")
    ensures AllBare("ns.target")
    ensures AllBare("ns.fstype")
  {
  }

  lemma NsKindBare()
    ensures AllBare("ns.nstype_name")
    ensures AllBare("ns.target_ns")
    ensures AllBare("ns.flags")
  {
  }

  lemma NsLastBare()
    ensures AllBare("ns.fd")
    ensures AllBare("ns.nstype")
    ensures AllBare("ns.names[]")
  {
  }

  lemma ProcessPrefix()
    ensures "process." <= "process.pid"
    ensures "process." <= "process.ppid"
    ensures "process." <= "process.uid"
    ensures "process." <= "process.gid"
    ensures "process." <= "process.comm"
    ensures "process." <= "process.exe"
    ensures "process." <= "process.ancestors[].pid"
    ensures "process." <= "process.ancestors[].comm"
    ensures "process." <= "process.ancestors[].exe"
  {
  }

  lemma FilePrefix()
    ensures "container." <= "container.container_id"
    ensures "file." <= "file.path"
    ensures "file." <= "file.action"
    ensures "file." <= "file.new_mode"
    ensures "file." <= "file.ino"
    ensures "file." <= "file.mask"
    ensures "file." <= "file.new_uid"
    ensures "file." <= "file.new_gid"
  {
  }

  lemma NetworkPrefix()
    ensures "network." <= "network.sip"
    ensures "network." <= "network.dip"
    ensures "network." <= "network.family"
    ensures "network." <= "network.protocol"
    ensures "network." <= "network.sport"
    ensures "network." <= "network.dport"
    ensures "dns." <= "dns.domain"
    ensures "dns." <= "dns.qtype"
  {
  }

  lemma PrivPrefix()
    ensures "priv." <= "priv.target_id"
    ensures "priv." <= "priv.effective_lo"
    ensures "priv." <= "priv.target_pid"
    ensures "priv." <= "priv.request_value"
    ensures "priv." <= "priv.request"
    ensures "priv." <= "priv.name"
  {
  }

  lemma NsPrefix()
    ensures "ns." <= "ns.source"
    ensures "ns." <= "ns.target"
    ensures "ns." <= "ns.fstype"
    ensures "ns." <= "ns.nstype_name"
    ensures "ns." <= "ns.target_ns"
    ensures "ns." <= "ns.flags"
    ensures "ns." <= "ns.fd"
    ensures "ns." <= "ns.nstype"
    ensures "ns." <= "ns.names[]"
  {
  }

  lemma PathBare(id: FieldId)
    ensures AllBare(PathOf(id))
  {
    hide AllBare;
    match id
    case EventType | ProcessPid | ProcessPpid | ProcessUid => ProcessBare();
    case ProcessGid | ProcessComm | ProcessExe => ProcessNamesBare();
    case AncestorPid | AncestorComm => AncestorBare();
    case AncestorExe => AncestorExeBare();
    case ContainerId => ContainerBare();
    case FilePath | FileAction | FileNewMode | FileIno => FileBare();
    case FileMask | FileNewUid | FileNewGid => FileOwnerBare();
    case NetSip | NetDip | NetFamily => NetworkBare();
    case NetProtocol | NetSport | NetDport => NetworkPortsBare();
    case DnsDomain | DnsQtype => DnsBare();
    case PrivTargetId | PrivEffectiveLo | PrivTargetPid => PrivTargetBare();
    case PrivRequestValue | PrivRequest | PrivName => PrivBare();
    case NsSource | NsTarget | NsFstype => NsBare();
    case NsNstypeName | NsTargetNs | NsFlags => NsKindBare();
    case NsFd | NsNstype | NsNames => NsLastBare();
  }

  lemma PrefixLooksLikeField(s: string)
    requires
      || s == "event_type" || "process." <= s || "container." <= s || "file." <= s || "network." <= s
      || "dns." <= s || "priv." <= s || "ns." <= s
    ensures s != [] && LooksLikeField(s)
  {
  }

  lemma PathLooksLikeField(id: FieldId)
    ensures PathOf(id) != [] && LooksLikeField(PathOf(id))
  {
    hide LooksLikeField;
    match id
    case EventType => PrefixLooksLikeField("event_type");
    case ProcessPid | ProcessPpid | ProcessUid | ProcessGid | ProcessComm | ProcessExe | AncestorPid | AncestorComm
        | AncestorExe =>
      ProcessPrefix();
      PrefixLooksLikeField(PathOf(id));
    case ContainerId | FilePath | FileAction | FileNewMode | FileIno | FileMask | FileNewUid | FileNewGid =>
      FilePrefix();
      PrefixLooksLikeField(PathOf(id));
    case NetSip | NetDip | NetFamily | NetProtocol | NetSport | NetDport | DnsDomain | DnsQtype =>
      NetworkPrefix();
      PrefixLooksLikeField(PathOf(id));
    case PrivTargetId | PrivEffectiveLo | PrivTargetPid | PrivRequestValue | PrivRequest | PrivName =>
      PrivPrefix();
      PrefixLooksLikeField(PathOf(id));
    case NsSource | NsTarget | NsFstype | NsNstypeName | NsTargetNs | NsFlags | NsFd | NsNstype | NsNames =>
      NsPrefix();
      PrefixLooksLikeField(PathOf(id));
  }

  lemma PathShape(id: FieldId)
    ensures FieldShaped(PathOf(id))
  {
    hide PathOf;
    PathBare(id);
    PathLooksLikeField(id);
  }

  lemma FieldLikeNotKeyword(s: string)
    requires LooksLikeField(s)
    ensures !IsKeyword(s) && s != "\"" && !IsNumberText(s)
  {
    assert s[0] in ['e', 'p', 'c', 'f', 'n', 'd'];
    if s[0] == 'n' {
      assert s[1] == 's' || |s| >= 8;
    }
    if s[0] == 'c' {
      assert |s| >= 10;
    }
    assert IsNumberText(s) ==> IsDigit(s[0]);
  }

  // ----- operands -----

  lemma ScalarBack(op: Operand, forceLiteral: bool, rest: seq<Token>)
    requires WellFormedScalar(op, forceLiteral)
    ensures ParseOperand([OperandToken(op)] + rest, forceLiteral) == Ok((op, rest))
    ensures Spellable(OperandToken(op))
  {
    var ts := [OperandToken(op)] + rest;
    assert Rest(ts) == rest;
    match op
    case Field(id) =>
      PathShape(id);
      FieldLikeNotKeyword(PathOf(id));
      PathRoundTrip(id);
    case Str(s) =>
      if s != "" {
        NotAField(s);
      }
    case Num(text, n) =>
      NotAField(text);
      NumberIsWord(text);
  }

  /** A text that does not look like a field is not a field. */
  lemma NotAField(s: string)
    ensures FieldIdFromPath(s).Some? ==> LooksLikeField(s)
  {
    var id := FieldIdFromPath(s);
    if id.Some? {
      PathShape(id.value);
    }
  }

  lemma NumberIsWord(s: string)
    requires IsNumberText(s)
    ensures IsWord(s) && !IsKeyword(s) && s != "\"" && !LooksLikeField(s)
  {
    if LooksLikeField(s) {
      FieldLikeNotKeyword(s);
    }
    assert IsDigit(s[0]);
  }

  lemma {:induction false} ItemsBack(acc: seq<Operand>, items: seq<Operand>, forceLiteral: bool, rest: seq<Token>)
    requires items != [] && forall i | 0 <= i < |items| :: WellFormedLiteral(items[i], forceLiteral)
    ensures ParseItems(acc, ItemTokens(items) + rest, forceLiteral) == Ok((List(acc + items), rest))
    decreases |items|
  {
    hide FieldIdFromPath;
    hide WordOperand;
    hide ParseOperand;
    hide PathOf;
    hide OperandToken;
    hide WellFormedLiteral;
    hide WellFormedScalar;
    LiteralIsScalar(items[0], forceLiteral);
    if |items| == 1 {
      ScalarBack(items[0], forceLiteral, [RParen] + rest);
      assert ItemTokens(items) + rest == [OperandToken(items[0])] + ([RParen] + rest);
      assert Rest([RParen] + rest) == rest;
      assert [items[0]] == items;
    } else {
      var more := ItemTokens(items[1..]) + rest;
      ScalarBack(items[0], forceLiteral, [Comma] + more);
      assert ItemTokens(items) + rest == [OperandToken(items[0])] + ([Comma] + more);
      assert Rest([Comma] + more) == more;
      ItemsBack(acc + [items[0]], items[1..], forceLiteral, rest);
      assert acc + [items[0]] + items[1..] == acc + items;
    }
  }

  lemma RhsBack(op: CmpOp, rhs: Operand, forceLiteral: bool, rest: seq<Token>)
    requires WellFormedRhs(op, rhs, forceLiteral)
    ensures ParseRhs(op, OperandTokens(rhs) + rest, forceLiteral) == Ok((rhs, rest))
  {
    hide PathOf;
    hide FieldIdFromPath;
    hide ParseOperand;
    hide ParseItems;
    if op == In {
      var inner := ItemTokens(rhs.list) + rest;
      assert OperandTokens(rhs) + rest == [LParen] + inner;
      assert Rest([LParen] + inner) == inner;
      ScalarBack(rhs.list[0], forceLiteral, []);
      assert Head(inner) == OperandToken(rhs.list[0]);
      assert OperandToken(rhs.list[0]) != RParen;
      ItemsBack([], rhs.list, forceLiteral, rest);
      assert [] + rhs.list == rhs.list;
    } else {
      ScalarBack(rhs, forceLiteral, rest);
      assert OperandToken(rhs) != LParen;
    }
  }

  /** An operand's token never reads as `not`, an operator or an opening parenthesis. */
  lemma OperandTokenPlain(op: Operand)
    requires WellFormedScalar(op, false)
    ensures OperandToken(op) != LParen && OperandToken(op) != Bare("not")
  {
    hide FieldIdFromPath;
    hide PathOf;
    if op.Field? {
      PathShape(op.field);
      FieldLikeNotKeyword(PathOf(op.field));
    } else if op.Num? {
      NumberIsWord(op.text);
    }
  }

  lemma ComparisonBack(c: Cond, rest: seq<Token>)
    requires c.Compare? && WellFormed(c)
    ensures ParseComparison(CondTokens(c, NotLevel) + rest) == Ok((c, rest))
    ensures Head(CondTokens(c, NotLevel) + rest) == OperandToken(c.lhs)
  {
    hide FieldIdFromPath;
    hide PathOf;
    hide ParseOperand;
    hide ParseRhs;
    hide WellFormedRhs;
    hide OperandToken;
    var Compare(op, lhs, rhs) := c;
    var afterOp := OperandTokens(rhs) + rest;
    var afterLhs := [OperatorToken(op)] + afterOp;
    assert CondTokens(c, NotLevel) + rest == [OperandToken(lhs)] + afterLhs;
    ScalarBack(lhs, false, afterLhs);
    assert Rest(afterLhs) == afterOp;
    RhsBack(op, rhs, lhs == Field(EventType), rest);
  }

  // ----- conditions -----

  /** The tokens that would extend an expression of the given level. */
  predicate Stops(level: Level, t: Token) {
    match level
    case OrLevel => t != Bare("or") && t != Bare("and")
    case AndLevel => t != Bare("and")
    case NotLevel => true
  }

  function ParseAt(level: Level, ts: seq<Token>): Parsed<Cond> {
    match level
    case OrLevel => ParseOr(ts)
    case AndLevel => ParseAnd(ts)
    case NotLevel => ParseNot(ts)
  }

  /** An expression of the tightest level is also one of every looser level, if the next token
      does not extend it. */
  lemma NotIsAnyLevel(level: Level, ts: seq<Token>, c: Cond, rest: seq<Token>)
    requires ParseNot(ts) == Ok((c, rest)) && Stops(level, Head(rest))
    ensures ParseAt(level, ts) == Ok((c, rest))
  {
    hide ParseNot;
    if level != NotLevel {
      assert ParseAnd(ts) == Ok((c, rest));
    }
  }

  lemma ParenthesesBack(c: Cond, inner: seq<Token>, rest: seq<Token>)
    requires ParseOr(inner + ([RParen] + rest)) == Ok((c, [RParen] + rest))
    ensures ParseNot([LParen] + inner + [RParen] + rest) == Ok((c, rest))
  {
    hide ParseOr;
    hide ParseComparison;
    var ts := [LParen] + inner + [RParen] + rest;
    assert Rest(ts) == inner + ([RParen] + rest);
    assert Rest([RParen] + rest) == rest;
  }

  lemma NotBack(child: Cond, inner: seq<Token>, rest: seq<Token>)
    requires ParseNot(inner + rest) == Ok((child, rest))
    ensures ParseNot([Bare("not")] + inner + rest) == Ok((Not(child), rest))
  {
    hide ParseOr;
    hide ParseComparison;
    assert Rest([Bare("not")] + inner + rest) == inner + rest;
  }

  lemma ComparisonIsNotLevel(c: Cond, rest: seq<Token>)
    requires c.Compare? && WellFormed(c)
    ensures ParseNot(CondTokens(c, NotLevel) + rest) == Ok((c, rest))
  {
    hide ParseComparison;
    hide CondTokens;
    hide ParseOr;
    hide OperandToken;
    ComparisonBack(c, rest);
    OperandTokenPlain(c.lhs);
  }

  /** Parsing the printed tokens of a tree, in any context, gives the tree back and leaves the
      context's tokens untouched. */
  lemma {:induction false} CondBack(c: Cond, level: Level, rest: seq<Token>)
    requires WellFormed(c) && Stops(level, Head(rest))
    ensures ParseAt(level, CondTokens(c, level) + rest) == Ok((c, rest))
    decreases c, 2
  {
    hide ParseComparison;
    hide ParseNot;
    hide ParseAnd;
    hide ParseOr;
    hide Joined;
    var ts := CondTokens(c, level) + rest;
    match c {
      case Compare(_, _, _) =>
        ComparisonIsNotLevel(c, rest);
        assert CondTokens(c, NotLevel) == CondTokens(c, level);
        NotIsAnyLevel(level, ts, c, rest);
      case Not(child) =>
        CondBack(child, NotLevel, rest);
        NotBack(child, CondTokens(child, NotLevel), rest);
        NotIsAnyLevel(level, ts, c, rest);
      case And(children) =>
        if level == NotLevel {
          AndBack(children, [RParen] + rest);
          AndIsOrLevel(Joined(children, Bare("and"), NotLevel) + ([RParen] + rest), c, [RParen] + rest);
          ParenthesesBack(c, Joined(children, Bare("and"), NotLevel), rest);
        } else {
          AndBack(children, rest);
          if level == OrLevel {
            AndIsOrLevel(ts, c, rest);
          }
        }
      case Or(children) =>
        if level == OrLevel {
          OrBack(children, rest);
        } else {
          OrBack(children, [RParen] + rest);
          ParenthesesBack(c, Joined(children, Bare("or"), AndLevel), rest);
          NotIsAnyLevel(level, ts, c, rest);
        }
    }
  }

  lemma AndIsOrLevel(ts: seq<Token>, c: Cond, rest: seq<Token>)
    requires ParseAnd(ts) == Ok((c, rest)) && Head(rest) != Bare("or")
    ensures ParseOr(ts) == Ok((c, rest))
  {
    hide ParseAnd;
  }

  lemma {:induction false} AndBack(children: seq<Cond>, rest: seq<Token>)
    requires |children| >= 2 && (forall i | 0 <= i < |children| :: WellFormed(children[i]))
    requires Head(rest) != Bare("and")
    ensures ParseAnd(Joined(children, Bare("and"), NotLevel) + rest) == Ok((And(children), rest))
    decreases children, 1
  {
    hide CondTokens;
    hide ParseNot;
    hide ParseOr;
    hide ParseComparison;
    hide AndMore;
    var more := Joined(children[1..], Bare("and"), NotLevel) + rest;
    CondBack(children[0], NotLevel, [Bare("and")] + more);
    assert Joined(children, Bare("and"), NotLevel) + rest == CondTokens(children[0], NotLevel) + ([Bare("and")] + more);
    AndMoreBack([children[0]], children[1..], rest);
    assert [children[0]] + children[1..] == children;
  }

  lemma AndMoreStep(acc: seq<Cond>, ts: seq<Token>)
    ensures ParseNot(ts).Ok? ==>
              AndMore(acc, [Bare("and")] + ts) == AndMore(acc + [ParseNot(ts).value.0], ParseNot(ts).value.1)
    ensures Head(ts) != Bare("and") ==> AndMore(acc, ts) == Ok((And(acc), ts))
  {
    hide ParseNot;
    assert Rest([Bare("and")] + ts) == ts;
  }

  lemma {:induction false} AndMoreBack(acc: seq<Cond>, children: seq<Cond>, rest: seq<Token>)
    requires children != [] && (forall i | 0 <= i < |children| :: WellFormed(children[i]))
    requires Head(rest) != Bare("and")
    ensures AndMore(acc, [Bare("and")] + (Joined(children, Bare("and"), NotLevel) + rest))
        == Ok((And(acc + children), rest))
    decreases children, 0
  {
    hide CondTokens;
    hide ParseNot;
    hide ParseOr;
    hide ParseAnd;
    hide ParseComparison;
    var ts := Joined(children, Bare("and"), NotLevel) + rest;
    AndMoreStep(acc, ts);
    AndMoreStep(acc + [children[0]], rest);
    hide AndMore;
    if |children| == 1 {
      CondBack(children[0], NotLevel, rest);
      assert [children[0]] == children;
    } else {
      var more := Joined(children[1..], Bare("and"), NotLevel) + rest;
      CondBack(children[0], NotLevel, [Bare("and")] + more);
      assert ts == CondTokens(children[0], NotLevel) + ([Bare("and")] + more);
      AndMoreBack(acc + [children[0]], children[1..], rest);
      assert acc + [children[0]] + children[1..] == acc + children;
    }
  }

  lemma {:induction false} OrBack(children: seq<Cond>, rest: seq<Token>)
    requires |children| >= 2 && (forall i | 0 <= i < |children| :: WellFormed(children[i]))
    requires Stops(OrLevel, Head(rest))
    ensures ParseOr(Joined(children, Bare("or"), AndLevel) + rest) == Ok((Or(children), rest))
    decreases children, 1
  {
    hide CondTokens;
    hide ParseNot;
    hide ParseAnd;
    hide ParseComparison;
    hide OrMore;
    var more := Joined(children[1..], Bare("or"), AndLevel) + rest;
    CondBack(children[0], AndLevel, [Bare("or")] + more);
    assert Joined(children, Bare("or"), AndLevel) + rest == CondTokens(children[0], AndLevel) + ([Bare("or")] + more);
    OrMoreBack([children[0]], children[1..], rest);
    assert [children[0]] + children[1..] == children;
  }

  lemma OrMoreStep(acc: seq<Cond>, ts: seq<Token>)
    ensures ParseAnd(ts).Ok? ==>
              OrMore(acc, [Bare("or")] + ts) == OrMore(acc + [ParseAnd(ts).value.0], ParseAnd(ts).value.1)
    ensures Head(ts) != Bare("or") ==> OrMore(acc, ts) == Ok((Or(acc), ts))
  {
    hide ParseAnd;
    assert Rest([Bare("or")] + ts) == ts;
  }

  lemma {:induction false} OrMoreBack(acc: seq<Cond>, children: seq<Cond>, rest: seq<Token>)
    requires children != [] && (forall i | 0 <= i < |children| :: WellFormed(children[i]))
    requires Stops(OrLevel, Head(rest))
    ensures OrMore(acc, [Bare("or")] + (Joined(children, Bare("or"), AndLevel) + rest))
        == Ok((Or(acc + children), rest))
    decreases children, 0
  {
    hide CondTokens;
    hide ParseNot;
    hide ParseOr;
    hide ParseAnd;
    hide ParseComparison;
    var ts := Joined(children, Bare("or"), AndLevel) + rest;
    OrMoreStep(acc, ts);
    OrMoreStep(acc + [children[0]], rest);
    hide OrMore;
    if |children| == 1 {
      CondBack(children[0], AndLevel, rest);
      assert [children[0]] == children;
    } else {
      var more := Joined(children[1..], Bare("or"), AndLevel) + rest;
      CondBack(children[0], AndLevel, [Bare("or")] + more);
      assert ts == CondTokens(children[0], AndLevel) + ([Bare("or")] + more);
      OrMoreBack(acc + [children[0]], children[1..], rest);
      assert acc + [children[0]] + children[1..] == acc + children;
    }
  }

  // ----- every printed token can be spelled -----

  lemma {:induction false} ItemsSpellable(items: seq<Operand>, forceLiteral: bool)
    requires forall i | 0 <= i < |items| :: WellFormedLiteral(items[i], forceLiteral)
    ensures AllSpellable(ItemTokens(items))
  {
    hide WellFormedLiteral;
    hide OperandToken;
    if items != [] {
      LiteralIsScalar(items[0], forceLiteral);
      ScalarBack(items[0], forceLiteral, []);
      ItemsSpellable(items[1..], forceLiteral);
    }
  }

  lemma LiteralIsScalar(op: Operand, forceLiteral: bool)
    requires WellFormedLiteral(op, forceLiteral)
    ensures WellFormedScalar(op, forceLiteral) && !op.Field?
  {
  }

  lemma SpellableConcat(a: seq<Token>, b: seq<Token>)
    requires AllSpellable(a) && AllSpellable(b)
    ensures AllSpellable(a + b)
  {
  }

  lemma RhsSpellable(op: CmpOp, rhs: Operand, forceLiteral: bool)
    requires WellFormedRhs(op, rhs, forceLiteral)
    ensures AllSpellable(OperandTokens(rhs))
  {
    hide OperandToken;
    hide WellFormedLiteral;
    if op == In {
      ItemsSpellable(rhs.list, forceLiteral);
      SpellableConcat([LParen], ItemTokens(rhs.list));
    } else {
      ScalarBack(rhs, forceLiteral, []);
    }
  }

  lemma OperatorSpellable(op: CmpOp)
    ensures AllSpellable([OperatorToken(op)])
  {
    match op
    case In => assert AllBare("in");
    case Contains => assert AllBare("contains");
    case StartsWith => assert AllBare("startswith");
    case _ =>
  }

  lemma ComparisonSpellable(op: CmpOp, lhs: Operand, rhs: Operand)
    requires WellFormed(Compare(op, lhs, rhs))
    ensures AllSpellable(OperandTokens(lhs) + [OperatorToken(op)] + OperandTokens(rhs))
  {
    hide OperandToken;
    hide Spellable;
    hide AllSpellable;
    hide OperatorToken;
    hide WellFormedScalar;
    hide WellFormedRhs;
    LhsSpellable(lhs);
    OperatorSpellable(op);
    RhsSpellable(op, rhs, lhs == Field(EventType));
    SpellableConcat(OperandTokens(lhs), [OperatorToken(op)]);
    SpellableConcat(OperandTokens(lhs) + [OperatorToken(op)], OperandTokens(rhs));
  }

  lemma LhsSpellable(lhs: Operand)
    requires WellFormedScalar(lhs, false)
    ensures AllSpellable(OperandTokens(lhs))
  {
    hide OperandToken;
    ScalarBack(lhs, false, []);
  }

  lemma {:induction false} CondSpellable(c: Cond, level: Level)
    requires WellFormed(c)
    ensures AllSpellable(CondTokens(c, level))
    decreases c, 1
  {
    hide OperandTokens;
    hide WellFormedScalar;
    hide WellFormedRhs;
    match c
    case Or(children) => JoinedSpellable(children, Bare("or"), AndLevel);
    case And(children) => JoinedSpellable(children, Bare("and"), NotLevel);
    case Not(child) => CondSpellable(child, NotLevel);
    case Compare(op, lhs, rhs) => ComparisonSpellable(op, lhs, rhs);
  }

  lemma {:induction false} JoinedSpellable(cs: seq<Cond>, sep: Token, level: Level)
    requires (forall i | 0 <= i < |cs| :: WellFormed(cs[i])) && Spellable(sep)
    ensures AllSpellable(Joined(cs, sep, level))
    decreases cs, 0
  {
    hide CondTokens;
    if cs != [] {
      CondSpellable(cs[0], level);
      JoinedSpellable(cs[1..], sep, level);
    }
  }

  /** Parsing undoes printing. */
  lemma ParseUndoesPrint(c: Cond)
    requires WellFormed(c)
    ensures Parse(Print(c)) == Ok(c)
  {
    hide ParseOr;
    hide Lex;
    hide Render;
    hide CondTokens;
    var ts := CondTokens(c, OrLevel);
    CondSpellable(c, OrLevel);
    LexUndoesRender(ts);
    CondBack(c, OrLevel, []);
    assert ts + [] == ts;
    if IsBlank(Print(c)) {
      BlankHasNoTokens(Print(c));
      NothingParses();
    }
  }

  lemma {:induction false} BlankHasNoTokens(text: string)
    requires IsBlank(text)
    ensures SkipSpaces(text) == [] && Lex(text) == []
  {
    if text != [] {
      assert text[0] in [' ', '\t', '\r', '\n'];
      BlankHasNoTokens(text[1..]);
    }
  }

  lemma NothingParses()
    ensures ParseOr([]).Err?
  {
    assert ParseAnd([]).Err?;
  }
}
