/** The kernel's matcher over a file's kept rules (bpf/bpf_common.h), against all the rules the
    configuration holds for that file. */
module RuleMatch {
  import opened Bytes
  import opened Options
  import opened RuleMerge

  /** An access: reading, writing, or one other kind of event by its mask bit. */
  datatype Probe = Probe(readHit: bool, writeHit: bool, singleBit: bv8)

  datatype MatchResult = MatchResult(action: Byte, severity: Byte, matched: bool)

  const UNMATCHED := MatchResult(ACTION_LOG, SEVERITY_LOW, false)

  predicate Shares(mask: bv8, bit: bv8) {
    mask & bit != 0
  }

  predicate Hits(rule: MonitorRule, p: Probe) {
    if p.singleBit != 0 then Shares(rule.eventsMask, p.singleBit)
    else (p.readHit && Shares(rule.eventsMask, EVENT_READ)) || (p.writeHit && Shares(rule.eventsMask, EVENT_WRITE))
  }

  /** The mask remembers exactly the operations that were configured. */
  lemma EncodedHitsIff(rule: ConfigRule, readHit: bool, writeHit: bool, event: nat)
    requires 3 <= event <= 7
    ensures Hits(Encoded(rule), Probe(readHit, writeHit, 0)) <==> (readHit && rule.read) || (writeHit && rule.write)
    ensures Hits(Encoded(rule), Probe(false, false, MaskBit(event))) <==>
              (event == EVENT_CHMOD && rule.chmod) || (event == EVENT_CHOWN && rule.chown)
                  || (event == EVENT_UNLINK && rule.unlink)
  {
  }

  // ----- what a match means -----

  /** The strongest action and the highest severity among the hitting rules, each on its own. */
  ghost predicate IsAnswer(rules: seq<MonitorRule>, p: Probe, m: MatchResult) {
    && (m.matched <==> exists r :: r in rules && Hits(r, p))
    && (forall r | r in rules && Hits(r, p) :: r.action <= m.action && r.severity <= m.severity)
    && (m.action == ACTION_LOG || exists r :: r in rules && Hits(r, p) && r.action == m.action)
    && (m.severity == SEVERITY_LOW || exists r :: r in rules && Hits(r, p) && r.severity == m.severity)
  }

  lemma AnswerIsUnique(rules: seq<MonitorRule>, p: Probe, m: MatchResult, n: MatchResult)
    requires IsAnswer(rules, p, m) && IsAnswer(rules, p, n)
    ensures m == n
  {
    hide Hits;
  }

  method MatchRuleSet(kept: Option<seq<MonitorRule>>, readHit: bool, writeHit: bool, singleBit: bv8)
      returns (m: MatchResult)
    requires kept.Some? ==> |kept.value| <= MAX_RULES_PER_INO
    ensures kept.None? ==> m == MatchResult(0, 0, false)
    ensures kept.Some? ==> IsAnswer(kept.value, Probe(readHit, writeHit, singleBit), m)
  {
    hide Shares;
    m := UNMATCHED;
    if kept.None? {
      return;
    }
    var rules := kept.value;
    ghost var p := Probe(readHit, writeHit, singleBit);
    for i := 0 to MAX_RULES_PER_INO
      invariant IsAnswer(rules[..if i < |rules| then i else |rules|], p, m)
    {
      if i >= |rules| {
        assert rules[..|rules|] == rules;
        break;
      }
      var r := rules[i];
      var hit := if singleBit != 0 then Shares(r.eventsMask, singleBit)
                 else (readHit && Shares(r.eventsMask, EVENT_READ)) || (writeHit && Shares(r.eventsMask, EVENT_WRITE));
      AnswerGrows(rules[..i], r, p, m);
      assert rules[..i + 1] == rules[..i] + [r];
      if !hit {
        continue;
      }
      m := m.(matched := true);
      if r.action > m.action {
        m := m.(action := r.action);
      }
      if r.severity > m.severity {
        m := m.(severity := r.severity);
      }
    }
    assert |rules| <= MAX_RULES_PER_INO ==> rules[..|rules|] == rules;
  }

  function Raise(a: Byte, b: Byte): Byte {
    if b > a then b else a
  }

  lemma AnswerGrows(rules: seq<MonitorRule>, r: MonitorRule, p: Probe, m: MatchResult)
    requires IsAnswer(rules, p, m)
    ensures IsAnswer(rules + [r], p,
              if Hits(r, p) then MatchResult(Raise(m.action, r.action), Raise(m.severity, r.severity), true) else m)
  {
    hide Hits;
    assert forall q :: q in rules + [r] <==> q in rules || q == r;
  }

  // ----- kept against configured -----

  lemma KeptAreConfigured(rules: seq<MonitorRule>)
    ensures forall k | k in Merged(rules) :: k in rules
    ensures forall r | r in rules && r !in Merged(rules) :: r in Discarded(rules)
    ensures forall d | d in Discarded(rules) :: d in rules
  {
    hide Merged;
    KeepsStrongest(rules);
    var kept := Merged(rules);
    forall k | k in kept
      ensures k in rules
    {
      assert multiset(kept)[k] > 0;
      assert k in multiset(rules);
    }
    forall r | r in rules && r !in kept
      ensures r in Discarded(rules)
    {
      assert multiset(rules)[r] > 0 && multiset(kept)[r] == 0;
    }
    forall d | d in Discarded(rules)
      ensures d in rules
    {
      assert d in multiset(rules);
    }
  }

  /** With four rules or fewer the kernel answers exactly as the configuration would. */
  lemma FewAnswerAlike(rules: seq<MonitorRule>, p: Probe, kept: MatchResult, full: MatchResult)
    requires |rules| <= MAX_RULES_PER_INO
    requires IsAnswer(Merged(rules), p, kept) && IsAnswer(rules, p, full)
    ensures kept == full
  {
    hide Hits;
    hide Merged;
    FewAreKeptWhole(rules);
    AnswerIsUnique(rules, p, kept, full);
  }

  /** With any number of rules it never answers more than the configuration would. */
  lemma NeverAnswersMore(rules: seq<MonitorRule>, p: Probe, kept: MatchResult, full: MatchResult)
    requires IsAnswer(Merged(rules), p, kept) && IsAnswer(rules, p, full)
    ensures kept.matched ==> full.matched
    ensures kept.action <= full.action && kept.severity <= full.severity
  {
    hide Hits;
    hide Merged;
    KeptAreConfigured(rules);
  }

  /** A hitting discarded rule that some hitting kept rule stands in for. */
  ghost predicate Covered(rules: seq<MonitorRule>, p: Probe, d: MonitorRule) {
    && (exists k :: k in Merged(rules) && Hits(k, p) && k.action >= d.action)
    && (exists k :: k in Merged(rules) && Hits(k, p) && k.severity >= d.severity)
  }

  /** The answer survives the merge exactly when every discarded rule that the access hits is
      covered by kept ones, action and severity each. */
  lemma AnswerKeptIff(rules: seq<MonitorRule>, p: Probe, kept: MatchResult, full: MatchResult)
    requires IsAnswer(Merged(rules), p, kept) && IsAnswer(rules, p, full)
    ensures kept == full <==> forall d | d in Discarded(rules) && Hits(d, p) :: Covered(rules, p, d)
  {
    hide Hits;
    hide Merged;
    hide Discarded;
    KeptAreConfigured(rules);
    if kept == full {
      forall d | d in Discarded(rules) && Hits(d, p)
        ensures Covered(rules, p, d)
      {
        assert kept.matched && d.action <= kept.action && d.severity <= kept.severity;
        var any :| any in Merged(rules) && Hits(any, p);
      }
    }
    if forall d | d in Discarded(rules) && Hits(d, p) :: Covered(rules, p, d) {
      assert IsAnswer(rules, p, kept);
      AnswerIsUnique(rules, p, kept, full);
    }
  }

  /** When an access hits every rule of the file, the action survives the merge. */
  lemma ActionSurvivesIfAllHit(rules: seq<MonitorRule>, p: Probe, kept: MatchResult, full: MatchResult)
    requires IsAnswer(Merged(rules), p, kept) && IsAnswer(rules, p, full)
    requires forall r | r in rules :: Hits(r, p)
    ensures kept.matched == full.matched && kept.action == full.action
  {
    hide Hits;
    hide Merged;
    hide Discarded;
    KeptAreConfigured(rules);
    KeepsStrongest(rules);
    MergedSize(rules);
    if rules != [] {
      var k := Merged(rules)[0];
      assert k in Merged(rules) && Hits(k, p);
      assert rules[0] in rules;
      forall r | r in rules
        ensures r.action <= kept.action
      {
        if r !in Merged(rules) {
          assert !Stronger(r, k);
        }
      }
    }
  }

  // ----- what can be lost -----

  /** Four blocking read rules push out an alerting write rule: a write no longer matches. */
  lemma MatchCanBeLost(strong: MonitorRule, weak: MonitorRule)
    requires strong == MonitorRule(ACTION_BLOCK, EVENT_READ, SEVERITY_LOW)
    requires weak == MonitorRule(ACTION_ALERT, EVENT_WRITE, 3)
    ensures var rules := [strong, strong, strong, strong, weak];
      && Merged(rules) == [strong, strong, strong, strong]
      && IsAnswer(rules, Probe(false, true, 0), MatchResult(ACTION_ALERT, 3, true))
      && IsAnswer(Merged(rules), Probe(false, true, 0), UNMATCHED)
  {
    var four := [strong, strong, strong, strong];
    var rules := four + [weak];
    FewAreKeptWhole(four);
    MergedNext(four, weak);
    assert rules == [strong, strong, strong, strong, weak];
    assert Admit(four, weak) == four;
    hide Merged;
    assert !Hits(strong, Probe(false, true, 0)) && Hits(weak, Probe(false, true, 0));
    assert forall r :: r in four <==> r == strong;
    assert weak in rules && forall r :: r in rules <==> r == strong || r == weak;
  }
}
