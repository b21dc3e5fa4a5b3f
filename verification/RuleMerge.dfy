/** Several rules on one file: the merge of src/baseline/monitor.cpp (`common_monitor_init`), which
    keeps the four strongest. */
module RuleMerge {
  import opened Bytes

  const ACTION_LOG: Byte := 0
  const ACTION_ALERT: Byte := 1
  const ACTION_BLOCK: Byte := 3
  const SEVERITY_LOW: Byte := 0
  const MAX_RULES_PER_INO := 4

  const EVENT_READ: bv8 := 1
  const EVENT_WRITE: bv8 := 2
  const EVENT_CHMOD := 3
  const EVENT_CHOWN := 4
  const EVENT_UNLINK := 5

  /** Reads and writes are their own mask bits, later events the bit of their number. */
  function MaskBit(event: nat): bv8
    requires 1 <= event <= 7
  {
    if event == 1 then 1 else if event == 2 then 2 else if event == 3 then 8 else if event == 4 then 16
    else if event == 5 then 32 else if event == 6 then 64 else 128
  }

  datatype MonitorRule = MonitorRule(action: Byte, eventsMask: bv8, severity: Byte)

  /** A configured rule, as far as the merge looks at it. */
  datatype ConfigRule = ConfigRule(hasMonitor: bool, path: string, ino: nat, block: bool, read: bool, write: bool,
                                   unlink: bool, chmod: bool, chown: bool, severity: Byte)

  function Flag(on: bool, bit: bv8): bv8 {
    if on then bit else 0
  }

  function EventsMask(rule: ConfigRule): bv8 {
    Flag(rule.read, EVENT_READ) | Flag(rule.write, EVENT_WRITE) | Flag(rule.unlink, MaskBit(EVENT_UNLINK))
    | Flag(rule.chmod, MaskBit(EVENT_CHMOD)) | Flag(rule.chown, MaskBit(EVENT_CHOWN))
  }

  function Encoded(rule: ConfigRule): MonitorRule {
    MonitorRule(if rule.block then ACTION_BLOCK else ACTION_ALERT, EventsMask(rule), rule.severity)
  }

  predicate Monitored(rule: ConfigRule) {
    rule.hasMonitor && rule.path != "" && rule.ino != 0
  }

  /** The encoded rules of one file, in configuration order. */
  function RulesFor(rules: seq<ConfigRule>, ino: nat): seq<MonitorRule> {
    if rules == [] then []
    else
      var last := rules[|rules| - 1];
      RulesFor(rules[..|rules| - 1], ino) + if Monitored(last) && last.ino == ino then [Encoded(last)] else []
  }

  // ----- strength -----

  /** Action first, severity among equal actions. */
  predicate Stronger(a: MonitorRule, b: MonitorRule) {
    a.action > b.action || (a.action == b.action && a.severity > b.severity)
  }

  /** The first of the weakest. */
  function Weakest(set4: seq<MonitorRule>): (k: nat)
    requires set4 != []
    ensures k < |set4|
    ensures forall j | 0 <= j < |set4| :: !Stronger(set4[k], set4[j])
    ensures forall j | 0 <= j < k :: Stronger(set4[j], set4[k])
  {
    if |set4| == 1 then 0
    else
      var n := |set4| - 1;
      var k := Weakest(set4[..n]);
      if Stronger(set4[k], set4[n]) then n else k
  }

  /** The kept rules after one more arrives. */
  function Admit(kept: seq<MonitorRule>, rule: MonitorRule): seq<MonitorRule> {
    if |kept| < MAX_RULES_PER_INO then kept + [rule]
    else
      var k := Weakest(kept);
      if Stronger(rule, kept[k]) then kept[k := rule] else kept
  }

  function Merged(rules: seq<MonitorRule>): seq<MonitorRule> {
    if rules == [] then [] else Admit(Merged(rules[..|rules| - 1]), rules[|rules| - 1])
  }

  // ----- the merge -----

  method EncodeRule(rule: ConfigRule) returns (value: MonitorRule)
    ensures value == Encoded(rule)
  {
    var mask: bv8 := 0;
    if rule.read {
      mask := mask | EVENT_READ;
    }
    if rule.write {
      mask := mask | EVENT_WRITE;
    }
    if rule.unlink {
      mask := mask | MaskBit(EVENT_UNLINK);
    }
    if rule.chmod {
      mask := mask | MaskBit(EVENT_CHMOD);
    }
    if rule.chown {
      mask := mask | MaskBit(EVENT_CHOWN);
    }
    value := MonitorRule(if rule.block then ACTION_BLOCK else ACTION_ALERT, mask, rule.severity);
  }

  /** One rule joins the set of its file. */
  method AdmitRule(kept: seq<MonitorRule>, value: MonitorRule) returns (next: seq<MonitorRule>)
    requires |kept| <= MAX_RULES_PER_INO
    ensures next == Admit(kept, value)
  {
    if |kept| < MAX_RULES_PER_INO {
      next := kept + [value];
    } else {
      var weakest := 0;
      for i := 1 to MAX_RULES_PER_INO
        invariant weakest < i && weakest == Weakest(kept[..i])
      {
        assert kept[..i + 1][..i] == kept[..i];
        if kept[i].action < kept[weakest].action
           || (kept[i].action == kept[weakest].action && kept[i].severity < kept[weakest].severity) {
          weakest := i;
        }
      }
      assert kept[..MAX_RULES_PER_INO] == kept;
      next := kept;
      if value.action > kept[weakest].action
         || (value.action == kept[weakest].action && value.severity > kept[weakest].severity) {
        next := kept[weakest := value];
      }
    }
  }

  /** One pass over the configuration: every monitored file gets its merged rules. */
  method MergeRules(rules: seq<ConfigRule>) returns (sets: map<nat, seq<MonitorRule>>)
    ensures forall ino :: ino in sets <==> RulesFor(rules, ino) != []
    ensures forall ino | ino in sets :: sets[ino] == Merged(RulesFor(rules, ino))
  {
    hide Admit;
    hide Encoded;
    sets := map[];
    for i := 0 to |rules|
      invariant forall ino :: ino in sets <==> RulesFor(rules[..i], ino) != []
      invariant forall ino | ino in sets :: sets[ino] == Merged(RulesFor(rules[..i], ino))
    {
      var rule := rules[i];
      RulesForNext(rules, i);
      if !rule.hasMonitor {
        continue;
      }
      if rule.path == "" || rule.ino == 0 {
        continue;
      }
      var value := EncodeRule(rule);
      var kept := if rule.ino in sets then sets[rule.ino] else [];
      MergedSize(RulesFor(rules[..i], rule.ino));
      MergedNext(RulesFor(rules[..i], rule.ino), value);
      var next := AdmitRule(kept, value);
      sets := sets[rule.ino := next];
    }
    assert rules[..|rules|] == rules;
  }

  lemma RulesForNext(rules: seq<ConfigRule>, i: nat)
    requires i < |rules|
    ensures forall ino :: RulesFor(rules[..i + 1], ino)
              == RulesFor(rules[..i], ino) + if Monitored(rules[i]) && rules[i].ino == ino then [Encoded(rules[i])]
                  else []
    ensures forall ino :: !(Monitored(rules[i]) && rules[i].ino == ino) ==>
              RulesFor(rules[..i + 1], ino) == RulesFor(rules[..i], ino)
  {
    assert rules[..i + 1][..i] == rules[..i];
  }

  lemma MergedNext(rules: seq<MonitorRule>, value: MonitorRule)
    ensures Merged([]) == [] && Merged(rules + [value]) == Admit(Merged(rules), value)
  {
    assert (rules + [value])[..|rules|] == rules;
  }

  lemma {:induction false} MergedSize(rules: seq<MonitorRule>)
    ensures |Merged(rules)| == if |rules| < MAX_RULES_PER_INO then |rules| else MAX_RULES_PER_INO
  {
    if rules != [] {
      MergedSize(rules[..|rules| - 1]);
    }
  }

  // ----- what is kept -----

  /** Four rules or fewer are all kept, in order. */
  lemma {:induction false} FewAreKeptWhole(rules: seq<MonitorRule>)
    requires |rules| <= MAX_RULES_PER_INO
    ensures Merged(rules) == rules
  {
    if rules != [] {
      FewAreKeptWhole(rules[..|rules| - 1]);
      assert rules[..|rules| - 1] + [rules[|rules| - 1]] == rules;
    }
  }

  function Discarded(rules: seq<MonitorRule>): multiset<MonitorRule> {
    multiset(rules) - multiset(Merged(rules))
  }

  predicate NoneStronger(discarded: multiset<MonitorRule>, kept: seq<MonitorRule>) {
    forall d, k | d in discarded && k in kept :: !Stronger(d, k)
  }

  /** What is kept comes from the list, rule for rule, and nothing discarded is strictly stronger
      than anything kept. */
  lemma {:induction false} KeepsStrongest(rules: seq<MonitorRule>)
    ensures multiset(Merged(rules)) <= multiset(rules)
    ensures NoneStronger(Discarded(rules), Merged(rules))
  {
    hide Admit;
    hide Stronger;
    if rules != [] {
      var front, last := rules[..|rules| - 1], rules[|rules| - 1];
      KeepsStrongest(front);
      MergedSize(front);
      FewDiscardNothing(front);
      AdmitKeeps(Merged(front), last, Discarded(front));
      assert rules == front + [last];
      TakenBack(multiset(front), multiset(Merged(front)), last);
    }
  }

  lemma FewDiscardNothing(rules: seq<MonitorRule>)
    ensures |rules| < MAX_RULES_PER_INO ==> Discarded(rules) == multiset{}
  {
    hide Merged;
    if |rules| < MAX_RULES_PER_INO {
      FewAreKeptWhole(rules);
    }
  }

  lemma TakenBack(all: multiset<MonitorRule>, kept: multiset<MonitorRule>, rule: MonitorRule)
    requires kept <= all
    ensures (all - kept) + kept + multiset{rule} == all + multiset{rule}
  {
  }

  /** Admitting a rule discards at most one: the newcomer or a weakest kept rule. */
  lemma AdmitKeeps(kept: seq<MonitorRule>, rule: MonitorRule, discarded: multiset<MonitorRule>)
    requires NoneStronger(discarded, kept) && |kept| <= MAX_RULES_PER_INO
    requires |kept| < MAX_RULES_PER_INO ==> discarded == multiset{}
    ensures var next := Admit(kept, rule);
      var all := discarded + multiset(kept) + multiset{rule};
      multiset(next) <= all && NoneStronger(all - multiset(next), next)
  {
    hide Stronger;
    hide Admit;
    AdmitIs(kept, rule);
    var k := if kept == [] then 0 else Weakest(kept);
    if |kept| < MAX_RULES_PER_INO {
      assert multiset(kept + [rule]) == multiset(kept) + multiset{rule};
      Regroup(discarded, multiset(kept), rule, rule);
    } else if Stronger(rule, kept[k]) {
      WeakestReplaced(kept, rule, discarded);
    } else {
      Regroup(discarded, multiset(kept), rule, rule);
      NewcomerRefused(kept, rule, discarded);
    }
  }

  lemma AdmitIs(kept: seq<MonitorRule>, rule: MonitorRule)
    ensures |kept| < MAX_RULES_PER_INO ==> Admit(kept, rule) == kept + [rule]
    ensures |kept| >= MAX_RULES_PER_INO && Stronger(rule, kept[Weakest(kept)]) ==>
              Admit(kept, rule) == kept[Weakest(kept) := rule]
    ensures |kept| >= MAX_RULES_PER_INO && !Stronger(rule, kept[Weakest(kept)]) ==> Admit(kept, rule) == kept
  {
  }

  /** Adding one rule and leaving out none, the newcomer, or another. */
  lemma Regroup(discarded: multiset<MonitorRule>, kept: multiset<MonitorRule>, rule: MonitorRule, out: MonitorRule)
    ensures discarded + kept + multiset{rule} - (kept + multiset{rule}) == discarded
    ensures discarded + kept + multiset{rule} - kept == discarded + multiset{rule}
    ensures out in kept ==> kept - multiset{out} + multiset{rule} <= discarded + kept + multiset{rule}
    ensures out in kept ==>
              discarded + kept + multiset{rule} - (kept - multiset{out} + multiset{rule}) == discarded + multiset{out}
  {
  }

  lemma WeakestReplaced(kept: seq<MonitorRule>, rule: MonitorRule, discarded: multiset<MonitorRule>)
    requires kept != [] && NoneStronger(discarded, kept) && Stronger(rule, kept[Weakest(kept)])
    ensures var next := kept[Weakest(kept) := rule];
      var all := discarded + multiset(kept) + multiset{rule};
      multiset(next) <= all && NoneStronger(all - multiset(next), next)
  {
    hide Weakest;
    var k := Weakest(kept);
    var next := kept[k := rule];
    assert multiset(next) == multiset(kept) - multiset{kept[k]} + multiset{rule};
    assert kept[k] in multiset(kept);
    Regroup(discarded, multiset(kept), rule, kept[k]);
    ReplacedNoneStronger(kept, rule, discarded);
  }

  lemma ReplacedNoneStronger(kept: seq<MonitorRule>, rule: MonitorRule, discarded: multiset<MonitorRule>)
    requires kept != [] && NoneStronger(discarded, kept) && Stronger(rule, kept[Weakest(kept)])
    ensures NoneStronger(discarded + multiset{kept[Weakest(kept)]}, kept[Weakest(kept) := rule])
  {
    hide Weakest;
    var k := Weakest(kept);
    var next := kept[k := rule];
    forall d, j | d in discarded + multiset{kept[k]} && 0 <= j < |next|
      ensures !Stronger(d, next[j])
    {
      assert kept[k] in kept && kept[j] in kept;
    }
  }

  lemma NewcomerRefused(kept: seq<MonitorRule>, rule: MonitorRule, discarded: multiset<MonitorRule>)
    requires kept != [] && NoneStronger(discarded, kept) && !Stronger(rule, kept[Weakest(kept)])
    ensures NoneStronger(discarded + multiset{rule}, kept)
  {
    forall j | 0 <= j < |kept|
      ensures !Stronger(rule, kept[j])
    {
    }
  }
}
