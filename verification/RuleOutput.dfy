/** What the alert text of a rule shows: references spelled out, and the value each one stands for
    (section 5 of docs/rule-dsl-v1.md). */
module RuleOutput {
  import opened Decimal
  import opened Options
  import opened RuleAst
  import opened RuleEval
  import opened RuleMeaning
  import opened RuleFields
  import opened ConditionRoundTrip
  import opened OutputTemplate
  import opened RuleEngine

  /** The characters of a reference's path. */
  predicate Referenced(c: char) {
    '0' <= c <= '9' || 'A' <= c <= 'Z' || 'a' <= c <= 'z' || c == '.' || c == '_'
  }

  lemma ReferencedIff(c: char)
    ensures Referenced(c) <==> IsPathChar(c)
  {
  }

  lemma {:induction false} PercentAfter(lead: string, rest: string)
    requires '%' !in lead
    ensures PercentAt(lead + "%" + rest) == |lead|
  {
    var s := lead + "%" + rest;
    if lead == "" {
      assert s[0] == '%';
    } else {
      assert lead[0] in lead && s[0] == lead[0] && lead == [lead[0]] + lead[1..];
      assert s[1..] == lead[1..] + "%" + rest;
      PercentAfter(lead[1..], rest);
    }
  }

  lemma {:induction false} PathEnds(path: string, rest: string)
    requires (forall c | c in path :: Referenced(c)) && (rest == "" || !Referenced(rest[0]))
    ensures PathLength(path + rest) == |path|
  {
    hide Referenced;
    var s := path + rest;
    if path == "" {
      assert s == rest;
      if rest != "" {
        ReferencedIff(rest[0]);
      }
    } else {
      assert path[0] in path && s[0] == path[0] && path == [path[0]] + path[1..];
      ReferencedIff(path[0]);
      assert s[1..] == path[1..] + rest;
      PathEnds(path[1..], rest);
    }
  }

  lemma PieceIs(lead: string, path: string, rest: string)
    requires '%' !in lead && (forall c | c in path :: Referenced(c)) && (rest == "" || !Referenced(rest[0]))
    ensures var t := lead + "%" + path + rest;
      PercentAt(t) == |lead| < |t| && FirstPiece(t) == Piece(lead, path, rest)
  {
    hide Referenced;
    var t := lead + "%" + path + rest;
    assert t == lead + "%" + (path + rest);
    PercentAfter(lead, path + rest);
    PathEnds(path, rest);
    assert t[|lead| + 1..] == path + rest && t[..|lead|] == lead;
    assert (path + rest)[..|path|] == path && (path + rest)[|path|..] == rest;
    hide PathLength;
    hide PercentAt;
  }

  /** A percent sign and a path of letters, digits, dots and underscores, as far as they go, refer to
      the field of that path, the rule's name or its priority; text before and after stays. */
  lemma ReferenceIs(lead: string, path: string, rest: string)
    requires '%' !in lead && path != "" && (forall c | c in path :: Referenced(c))
    requires rest == "" || !Referenced(rest[0])
    requires Compile(rest).Ok?
    ensures var before := if lead == "" then [] else [Literal(lead)];
      var t := lead + "%" + path + rest;
      && (path == "rule.name" ==> Compile(t) == Ok(before + [RuleName] + Compile(rest).value))
      && (path == "rule.priority" ==> Compile(t) == Ok(before + [RulePriority] + Compile(rest).value))
      && (forall id :: FieldIdFromPath(path) == Some(id) && !IsArrayElem(id) ==>
            Compile(t) == Ok(before + [FieldRef(id)] + Compile(rest).value))
  {
    hide Referenced;
    hide FieldIdFromPath;
    hide FirstPiece;
    hide PercentAt;
    PieceIs(lead, path, rest);
    NoFieldOfRules();
  }

  lemma NoFieldOfRules()
    ensures FieldIdFromPath("rule.name").None? && FieldIdFromPath("rule.priority").None?
    ensures "rule.name" != "rule.priority"
  {
    NotAField("rule.name");
    NotAField("rule.priority");
    hide FieldIdFromPath;
    assert "rule.name"[0] == 'r' && "rule.priority"[0] == 'r';
    assert |"rule.name"| != |"rule.priority"|;
  }

  // ----- values -----

  /** A text field is shown as the text it equals. */
  lemma TextIsShown(ev: EventView, id: FieldId)
    requires !IsArrayElem(id) && !IsNumber(id)
    ensures Equals(ev, id, Str(FieldText(ev, id)))
  {
    EqualsIff(ev, id, Str(FieldText(ev, id)));
    hide ResolveScalar;
    hide Equals;
  }

  /** A number is shown in decimal, and not at all when the event does not carry it. */
  lemma NumberIsShown(ev: EventView, id: FieldId, n: int)
    requires !IsArrayElem(id) && IsNumber(id)
    ensures Equals(ev, id, Num("", n)) ==> FieldText(ev, id) == IntText(n)
    ensures !HasValue(ev, id) ==> FieldText(ev, id) == ""
  {
    EqualsIff(ev, id, Num("", n));
    HasValueIff(ev, id);
    hide ResolveScalar;
    hide Equals;
    hide HasValue;
  }

  /** Text, name, priority and fields are shown one after the other. */
  lemma ShownInOrder(ev: EventView, name: string, priority: string, segs: seq<Seg>, text: string, id: FieldId)
    ensures Rendered(ev, name, priority, []) == ""
    ensures Rendered(ev, name, priority, segs + [Literal(text)]) == Rendered(ev, name, priority, segs) + text
    ensures Rendered(ev, name, priority, segs + [RuleName]) == Rendered(ev, name, priority, segs) + name
    ensures Rendered(ev, name, priority, segs + [RulePriority]) == Rendered(ev, name, priority, segs) + priority
    ensures Rendered(ev, name, priority, segs + [FieldRef(id)])
         == Rendered(ev, name, priority, segs) + FieldText(ev, id)
  {
    hide FieldText;
    var n := |segs|;
    assert (segs + [Literal(text)])[..n] == segs && (segs + [RuleName])[..n] == segs
        && (segs + [RulePriority])[..n] == segs && (segs + [FieldRef(id)])[..n] == segs;
  }

  /** A rule whose text ends in a reference to a field shows that field there. */
  lemma FieldIsShown(rule: Rule, ev: EventView, lead: string, path: string, id: FieldId)
    requires '%' !in lead && path != "" && forall c | c in path :: Referenced(c)
    requires FieldIdFromPath(path) == Some(id) && !IsArrayElem(id)
    requires rule.outputTemplate == lead + "%" + path
    ensures OutputOf(rule, ev) == Some(lead + FieldText(ev, id))
  {
    hide *;
    assert lead + "%" + path + "" == rule.outputTemplate;
    NothingCompiles();
    ReferenceIs(lead, path, "");
    var before: seq<Seg> := if lead == "" then [] else [Literal(lead)];
    assert before + [FieldRef(id)] + [] == before + [FieldRef(id)];
    ShownInOrder(ev, rule.name, rule.priority, [], lead, id);
    ShownInOrder(ev, rule.name, rule.priority, before, lead, id);
    assert [] + [Literal(lead)] == [Literal(lead)] && "" + lead == lead;
    OutputIs(rule, ev, before + [FieldRef(id)]);
  }

  lemma NothingCompiles()
    ensures Compile("") == Ok([])
  {
  }

  lemma OutputIs(rule: Rule, ev: EventView, segs: seq<Seg>)
    requires Compile(rule.outputTemplate) == Ok(segs)
    ensures OutputOf(rule, ev) == Some(Rendered(ev, rule.name, rule.priority, segs))
  {
    hide Compile;
    hide Rendered;
  }

  /** A rule whose text ends in a reference to the executable shows the executable there. */
  lemma ExecutableIsShown(rule: Rule, ev: EventView, lead: string)
    requires '%' !in lead && rule.outputTemplate == lead + "%" + "process.exe"
    ensures OutputOf(rule, ev) == Some(lead + ev.exe)
  {
    ExecutablePath();
    ExecutableText(ev);
    hide *;
    FieldIsShown(rule, ev, lead, "process.exe", ProcessExe);
  }

  lemma ExecutableText(ev: EventView)
    ensures !IsArrayElem(ProcessExe) && FieldText(ev, ProcessExe) == ev.exe
  {
  }

  lemma ExecutablePath()
    ensures FieldIdFromPath("process.exe") == Some(ProcessExe)
    ensures forall c | c in "process.exe" :: Referenced(c)
  {
    PathRoundTrip(ProcessExe);
    hide FieldIdFromPath;
  }

  // ----- rules that are refused -----

  /** Rule `i` is the first from `from` on whose text does not compile. */
  ghost predicate IsFirstRefused(rules: seq<Rule>, from: nat, i: nat) {
    && from <= i < |rules| && Compile(rules[i].outputTemplate).Err?
    && forall j | from <= j < i :: Compile(rules[j].outputTemplate).Ok?
  }

  /** Building reports the first rule, in load order, whose text does not compile. */
  lemma {:induction false} FirstRefused(rules: seq<Rule>, from: nat, i: nat)
    requires from <= |rules|
    ensures FirstBadTemplate(rules, from).None? <==>
              forall k | from <= k < |rules| :: Compile(rules[k].outputTemplate).Ok?
    ensures IsFirstRefused(rules, from, i) ==>
              FirstBadTemplate(rules, from)
              == Some(BuildError(rules[i].sourceFile, rules[i].name, Compile(rules[i].outputTemplate).error))
    decreases |rules| - from
  {
    hide Compile;
    if from < |rules| {
      FirstRefused(rules, from + 1, i);
      RefusedHere(rules, from);
      hide FirstBadTemplate;
    }
  }

  lemma RefusedHere(rules: seq<Rule>, i: nat)
    requires i < |rules|
    ensures Compile(rules[i].outputTemplate).Ok? ==> FirstBadTemplate(rules, i) == FirstBadTemplate(rules, i + 1)
    ensures Compile(rules[i].outputTemplate).Err? ==>
              FirstBadTemplate(rules, i)
              == Some(BuildError(rules[i].sourceFile, rules[i].name, Compile(rules[i].outputTemplate).error))
  {
    hide Compile;
  }
}
