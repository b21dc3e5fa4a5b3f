/** What the kernel answers for a file, in terms of the file's configured rules: the encoding of
    src/baseline/monitor.cpp, its merge and the matcher of bpf/bpf_common.h together, with the
    numbers of bpf/event.h. */
module RuleAnswer {
  import opened Bytes
  import opened RuleMerge
  import opened RuleMatch

  /** A blocking rule is stored with action 3, any other with 1; the severity is kept, and the mask
      has bit 0 for reads, 1 for writes, 3 for chmod, 4 for chown and 5 for unlink. */
  lemma EncodedIs(rule: ConfigRule)
    ensures Encoded(rule).action == (if rule.block then 3 else 1) && Encoded(rule).severity == rule.severity
    ensures Shares(Encoded(rule).eventsMask, 1) <==> rule.read
    ensures Shares(Encoded(rule).eventsMask, 2) <==> rule.write
    ensures Shares(Encoded(rule).eventsMask, 8) <==> rule.chmod
    ensures Shares(Encoded(rule).eventsMask, 16) <==> rule.chown
    ensures Shares(Encoded(rule).eventsMask, 32) <==> rule.unlink
    ensures !Shares(Encoded(rule).eventsMask, 4) && !Shares(Encoded(rule).eventsMask, 64)
    ensures !Shares(Encoded(rule).eventsMask, 128)
  {
  }

  /** A rule's strength as one number: the action decides, among equal actions the severity. */
  function Strength(rule: MonitorRule): nat {
    256 * rule.action as int + rule.severity as int
  }

  /** Of all the rules of a file the merge keeps the strongest: none that it discards is stronger
      than one that it keeps. */
  lemma StrongestAreKept(rules: seq<MonitorRule>, discarded: MonitorRule, kept: MonitorRule)
    requires discarded in Discarded(rules) && kept in Merged(rules)
    ensures Strength(discarded) <= Strength(kept)
  {
    hide Merged;
    hide Discarded;
    KeepsStrongest(rules);
    assert !Stronger(discarded, kept);
  }

  /** A full set takes in a rule if and only if the rule is stronger than the weakest of the four. */
  lemma FullSetTakesIff(kept: seq<MonitorRule>, rule: MonitorRule)
    requires |kept| == 4
    ensures (exists k :: 0 <= k < 4 && Admit(kept, rule) == kept[k := rule] && Strength(rule) > Strength(kept[k]))
        <==> exists k :: 0 <= k < 4 && Strength(rule) > Strength(kept[k])
    ensures (forall k | 0 <= k < 4 :: Strength(rule) <= Strength(kept[k])) ==> Admit(kept, rule) == kept
  {
    var w := Weakest(kept);
    hide Weakest;
    assert forall k | 0 <= k < 4 :: Strength(kept[w]) <= Strength(kept[k]);
  }

  datatype Access = Reading | Writing | Unlinking | ChangingMode | ChangingOwner

  /** How the kernel asks about the access. */
  function ProbeOf(access: Access): Probe {
    match access
    case Reading => Probe(true, false, 0)
    case Writing => Probe(false, true, 0)
    case Unlinking => Probe(false, false, 32)
    case ChangingMode => Probe(false, false, 8)
    case ChangingOwner => Probe(false, false, 16)
  }

  /** The rule is for this file and this access. */
  predicate Concerns(rule: ConfigRule, ino: nat, access: Access) {
    && rule.hasMonitor && rule.path != "" && rule.ino == ino && ino != 0
    && match access
       case Reading => rule.read
       case Writing => rule.write
       case Unlinking => rule.unlink
       case ChangingMode => rule.chmod
       case ChangingOwner => rule.chown
  }

  lemma HitsIff(rule: ConfigRule, ino: nat, access: Access)
    ensures Monitored(rule) && rule.ino == ino && Hits(Encoded(rule), ProbeOf(access)) <==> Concerns(rule, ino, access)
  {
    EncodedIs(rule);
    hide Encoded;
    hide Shares;
  }

  /** The hitting encoded rules are those of the configured rules concerned. */
  lemma {:induction false} HittingAre(rules: seq<ConfigRule>, ino: nat, access: Access)
    ensures forall r :: r in RulesFor(rules, ino) && Hits(r, ProbeOf(access)) <==>
                          exists i :: IsHitBy(rules, ino, access, r, i)
  {
    hide Encoded;
    hide Hits;
    hide ProbeOf;
    hide Concerns;
    hide Monitored;
    if rules != [] {
      var n := |rules| - 1;
      HittingAre(rules[..n], ino, access);
      HitsIff(rules[n], ino, access);
      forall r: MonitorRule
        ensures r in RulesFor(rules, ino) && Hits(r, ProbeOf(access)) <==>
                  exists i :: IsHitBy(rules, ino, access, r, i)
      {
        OneMoreRule(rules, ino, access, r);
      }
    }
  }

  ghost predicate IsHitBy(rules: seq<ConfigRule>, ino: nat, access: Access, r: MonitorRule, i: int) {
    0 <= i < |rules| && Concerns(rules[i], ino, access) && r == Encoded(rules[i])
  }

  lemma OneMoreRule(rules: seq<ConfigRule>, ino: nat, access: Access, r: MonitorRule)
    requires rules != []
    ensures var n := |rules| - 1;
      (exists i :: IsHitBy(rules, ino, access, r, i)) <==>
        (exists i :: IsHitBy(rules[..n], ino, access, r, i)) || IsHitBy(rules, ino, access, r, n)
  {
    hide Encoded;
    hide Concerns;
    var n := |rules| - 1;
    forall i: int
      ensures i != n ==> (IsHitBy(rules, ino, access, r, i) <==> IsHitBy(rules[..n], ino, access, r, i))
    {
    }
  }

  /** The configured rules that concern an access, read as one answer: 3 if one of them blocks, 1 if
      there are some and none blocks, and the highest of their severities. */
  lemma ConfiguredAnswer(rules: seq<ConfigRule>, ino: nat, access: Access, m: MatchResult)
    requires IsAnswer(RulesFor(rules, ino), ProbeOf(access), m)
    ensures m.action == 3 <==> exists i | 0 <= i < |rules| :: Concerns(rules[i], ino, access) && rules[i].block
    ensures m.action == 1 <==>
              && (exists i | 0 <= i < |rules| :: Concerns(rules[i], ino, access))
              && (forall i | 0 <= i < |rules| && Concerns(rules[i], ino, access) :: !rules[i].block)
    ensures m.matched <==> exists i | 0 <= i < |rules| :: Concerns(rules[i], ino, access)
    ensures m.action == 0 <==> !m.matched
    ensures forall i | 0 <= i < |rules| && Concerns(rules[i], ino, access) :: rules[i].severity <= m.severity
    ensures m.severity == 0 || exists i | 0 <= i < |rules| ::
              Concerns(rules[i], ino, access) && rules[i].severity == m.severity
  {
    hide Encoded;
    hide Hits;
    hide ProbeOf;
    hide Concerns;
    hide RulesFor;
    HittingAre(rules, ino, access);
    var p := ProbeOf(access);
    var full := RulesFor(rules, ino);
    forall i | 0 <= i < |rules| && Concerns(rules[i], ino, access)
      ensures Encoded(rules[i]) in full && Hits(Encoded(rules[i]), p)
      ensures Encoded(rules[i]).action == (if rules[i].block then 3 else 1)
      ensures Encoded(rules[i]).severity == rules[i].severity
    {
      EncodedIs(rules[i]);
      assert IsHitBy(rules, ino, access, Encoded(rules[i]), i);
    }
    forall r | r in full && Hits(r, p)
      ensures exists i :: IsHitBy(rules, ino, access, r, i)
    {
    }
  }

  // ----- how many rules a file has -----

  /** The number of configured rules on the file. */
  function CountOn(rules: seq<ConfigRule>, ino: nat): nat {
    if rules == [] then 0
    else
      var last := rules[|rules| - 1];
      CountOn(rules[..|rules| - 1], ino)
      + if last.hasMonitor && last.path != "" && last.ino == ino && ino != 0 then 1 else 0
  }

  lemma {:induction false} StoredForEach(rules: seq<ConfigRule>, ino: nat)
    ensures |RulesFor(rules, ino)| == CountOn(rules, ino)
  {
    hide Encoded;
    if rules != [] {
      StoredForEach(rules[..|rules| - 1], ino);
    }
  }

  /** The kernel's answer for a file of up to four rules, over what the merge stored for it. */
  lemma KernelAnswer(rules: seq<ConfigRule>, ino: nat, access: Access, m: MatchResult)
    requires CountOn(rules, ino) <= 4 && IsAnswer(Merged(RulesFor(rules, ino)), ProbeOf(access), m)
    ensures m.action == 3 <==> exists i | 0 <= i < |rules| :: Concerns(rules[i], ino, access) && rules[i].block
    ensures m.action == 1 <==>
              && (exists i | 0 <= i < |rules| :: Concerns(rules[i], ino, access))
              && (forall i | 0 <= i < |rules| && Concerns(rules[i], ino, access) :: !rules[i].block)
    ensures m.matched <==> exists i | 0 <= i < |rules| :: Concerns(rules[i], ino, access)
    ensures m.action == 0 <==> !m.matched
    ensures forall i | 0 <= i < |rules| && Concerns(rules[i], ino, access) :: rules[i].severity <= m.severity
    ensures m.severity == 0 || exists i | 0 <= i < |rules| ::
              Concerns(rules[i], ino, access) && rules[i].severity == m.severity
  {
    hide Merged;
    hide IsAnswer;
    hide RulesFor;
    hide CountOn;
    hide Concerns;
    hide ProbeOf;
    StoredForEach(rules, ino);
    FewAreKeptWhole(RulesFor(rules, ino));
    ConfiguredAnswer(rules, ino, access, m);
  }

  /** A write to a file with one rule that blocks writes is blocked; with one that only reports
      them it is reported and passes. */
  lemma OneWriteRule(rule: ConfigRule, m: MatchResult)
    requires rule.hasMonitor && rule.path != "" && rule.ino != 0 && rule.write
    requires IsAnswer(Merged(RulesFor([rule], rule.ino)), Probe(false, true, 0), m)
    ensures m == MatchResult(if rule.block then 3 else 1, rule.severity, true)
  {
    hide Merged;
    hide IsAnswer;
    hide RulesFor;
    assert [rule][..0] == [];
    assert CountOn([rule], rule.ino) == 1;
    assert Concerns([rule][0], rule.ino, Writing);
    KernelAnswer([rule], rule.ino, Writing, m);
  }
}
