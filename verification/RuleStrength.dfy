/** Which of a file's configured rules the merge of src/baseline/monitor.cpp keeps, told from the
    configuration alone, and when the kernel's answer survives the merge. */
module RuleStrength {
  import opened RuleMerge
  import opened RuleMatch

  /** At least as strong as the bar, or strictly stronger. */
  predicate Above(rule: MonitorRule, bar: MonitorRule, strict: bool) {
    if strict then Stronger(rule, bar) else !Stronger(bar, rule)
  }

  function CountAbove(rules: seq<MonitorRule>, bar: MonitorRule, strict: bool): (n: nat)
    ensures n <= |rules|
    ensures n == |rules| <==> forall r | r in rules :: Above(r, bar, strict)
  {
    if rules == [] then 0
    else
      var last := rules[|rules| - 1];
      assert rules == rules[..|rules| - 1] + [last];
      CountAbove(rules[..|rules| - 1], bar, strict) + if Above(last, bar, strict) then 1 else 0
  }

  lemma CountAppend(rules: seq<MonitorRule>, rule: MonitorRule, bar: MonitorRule, strict: bool)
    ensures CountAbove(rules + [rule], bar, strict) == CountAbove(rules, bar, strict)
        + if Above(rule, bar, strict) then 1 else 0
  {
    assert (rules + [rule])[..|rules|] == rules;
  }

  lemma {:induction false} CountUpdate(rules: seq<MonitorRule>, k: nat, rule: MonitorRule, bar: MonitorRule,
      strict: bool)
    requires k < |rules|
    ensures CountAbove(rules[k := rule], bar, strict) + (if Above(rules[k], bar, strict) then 1 else 0)
         == CountAbove(rules, bar, strict) + if Above(rule, bar, strict) then 1 else 0
  {
    hide Above;
    var n := |rules| - 1;
    if k < n {
      CountUpdate(rules[..n], k, rule, bar, strict);
      assert rules[k := rule][..n] == rules[..n][k := rule];
    } else {
      assert rules[k := rule][..n] == rules[..n];
    }
  }

  // ----- how many strong rules are kept -----

  function AtMostFour(n: nat): nat {
    if n < MAX_RULES_PER_INO then n else MAX_RULES_PER_INO
  }

  lemma AdmitCount(kept: seq<MonitorRule>, rule: MonitorRule, bar: MonitorRule, strict: bool, before: nat)
    requires |kept| <= MAX_RULES_PER_INO && CountAbove(kept, bar, strict) == AtMostFour(before)
    requires |kept| < MAX_RULES_PER_INO ==> before < MAX_RULES_PER_INO
    ensures CountAbove(Admit(kept, rule), bar, strict) == AtMostFour(before + if Above(rule, bar, strict) then 1 else 0)
  {
    hide CountAbove;
    hide Admit;
    AdmitIs(kept, rule);
    if |kept| < MAX_RULES_PER_INO {
      CountAppend(kept, rule, bar, strict);
    } else {
      var k := Weakest(kept);
      hide Weakest;
      CountUpdate(kept, k, rule, bar, strict);
      forall j | 0 <= j < |kept|
        ensures Above(kept[k], bar, strict) ==> Above(kept[j], bar, strict)
      {
      }
      assert kept[k] in kept;
    }
  }

  /** Of the rules above any bar the merge keeps as many as there are, up to four. */
  lemma {:induction false} KeptAbove(rules: seq<MonitorRule>, bar: MonitorRule, strict: bool)
    ensures CountAbove(Merged(rules), bar, strict) == AtMostFour(CountAbove(rules, bar, strict))
  {
    hide Admit;
    hide Above;
    if rules != [] {
      var front, last := rules[..|rules| - 1], rules[|rules| - 1];
      KeptAbove(front, bar, strict);
      MergedSize(front);
      AdmitCount(Merged(front), last, bar, strict, CountAbove(front, bar, strict));
      CountAppend(front, last, bar, strict);
      assert front + [last] == rules;
    }
  }

  /** A rule with four or more strictly stronger rules on its file is discarded. */
  lemma FourStrongerDiscard(rules: seq<MonitorRule>, rule: MonitorRule)
    requires CountAbove(rules, rule, true) >= MAX_RULES_PER_INO
    ensures rule !in Merged(rules)
  {
    hide Merged;
    KeptAbove(rules, rule, true);
    MergedSize(rules);
  }

  /** What one more rule discards: nothing, the newcomer, or the weakest of the kept. */
  lemma DiscardedStep(front: seq<MonitorRule>, rule: MonitorRule)
    ensures var kept := Merged(front);
      Discarded(front + [rule])
      == if |kept| < MAX_RULES_PER_INO then Discarded(front)
         else Discarded(front) + multiset{if Stronger(rule, kept[Weakest(kept)]) then kept[Weakest(kept)] else rule}
  {
    hide Merged;
    hide Stronger;
    hide Admit;
    hide Weakest;
    var kept := Merged(front);
    KeepsStrongest(front);
    MergedNext(front, rule);
    AdmitIs(kept, rule);
    TakenBack(multiset(front), multiset(kept), rule);
    assert multiset(front + [rule]) == multiset(front) + multiset{rule};
    var discarded := Discarded(front);
    Regroup(discarded, multiset(kept), rule, rule);
    if |kept| < MAX_RULES_PER_INO {
      assert multiset(kept + [rule]) == multiset(kept) + multiset{rule};
    } else if Stronger(rule, kept[Weakest(kept)]) {
      var k := Weakest(kept);
      assert multiset(kept[k := rule]) == multiset(kept) - multiset{kept[k]} + multiset{rule};
      assert kept[k] in multiset(kept);
      Regroup(discarded, multiset(kept), rule, kept[k]);
    }
  }

  /** A discarded rule has at least four others on its file that are not weaker. */
  lemma {:induction false} DiscardedHasFour(rules: seq<MonitorRule>, rule: MonitorRule)
    requires rule in Discarded(rules)
    ensures CountAbove(rules, rule, false) > MAX_RULES_PER_INO
  {
    hide Merged;
    hide Discarded;
    hide CountAbove;
    hide Weakest;
    if rules == [] {
      NothingDiscarded();
    } else {
      var front, last := rules[..|rules| - 1], rules[|rules| - 1];
      assert front + [last] == rules;
      DiscardedStep(front, last);
      CountAppend(front, last, rule, false);
      if rule in Discarded(front) {
        DiscardedHasFour(front, rule);
      } else {
        var kept := Merged(front);
        MergedSize(front);
        KeptAbove(front, rule, false);
        NewlyDiscarded(kept, last, rule);
      }
    }
  }

  lemma NothingDiscarded()
    ensures Discarded([]) == multiset{}
  {
  }

  lemma NewlyDiscarded(kept: seq<MonitorRule>, newcomer: MonitorRule, rule: MonitorRule)
    requires |kept| == MAX_RULES_PER_INO
    requires var w := kept[Weakest(kept)]; rule == if Stronger(newcomer, w) then w else newcomer
    ensures CountAbove(kept, rule, false) == MAX_RULES_PER_INO && Above(newcomer, rule, false)
  {
    hide Weakest;
    forall r | r in kept
      ensures Above(r, rule, false)
    {
      var j :| 0 <= j < |kept| && kept[j] == r;
    }
  }

  /** A configured rule with fewer than four others that are not weaker is kept. */
  lemma FewNotWeakerKeep(rules: seq<MonitorRule>, rule: MonitorRule)
    requires rule in rules && CountAbove(rules, rule, false) <= MAX_RULES_PER_INO
    ensures rule in Merged(rules)
  {
    hide Merged;
    hide Discarded;
    hide CountAbove;
    KeptAreConfigured(rules);
    if rule !in Merged(rules) {
      DiscardedHasFour(rules, rule);
    }
  }

  /** No two rules are equally strong. */
  predicate AllDifferent(rules: seq<MonitorRule>) {
    forall i, j | 0 <= i < j < |rules| :: Stronger(rules[i], rules[j]) || Stronger(rules[j], rules[i])
  }

  lemma {:induction false} OnlyItselfEqual(rules: seq<MonitorRule>, rule: MonitorRule)
    requires AllDifferent(rules)
    requires rule in rules || forall r | r in rules :: Stronger(r, rule) || Stronger(rule, r)
    ensures CountAbove(rules, rule, false) == CountAbove(rules, rule, true) + if rule in rules then 1 else 0
  {
    if rules != [] {
      var n := |rules| - 1;
      var front := rules[..n];
      assert rules == front + [rules[n]];
      assert forall i | 0 <= i < n :: front[i] == rules[i];
      if rule == rules[n] {
        forall r | r in front
          ensures Stronger(r, rule) || Stronger(rule, r)
        {
          var i :| 0 <= i < n && front[i] == r;
          assert Stronger(rules[i], rules[n]) || Stronger(rules[n], rules[i]);
        }
      } else if rule in rules {
        var i :| 0 <= i < n && front[i] == rule;
        assert Stronger(rules[i], rules[n]) || Stronger(rules[n], rules[i]);
      }
      OnlyItselfEqual(front, rule);
    }
  }

  /** With no two rules equally strong, a rule is kept exactly when fewer than four are stronger. */
  lemma KeptIff(rules: seq<MonitorRule>, rule: MonitorRule)
    requires AllDifferent(rules) && rule in rules
    ensures rule in Merged(rules) <==> CountAbove(rules, rule, true) < MAX_RULES_PER_INO
  {
    hide Merged;
    hide CountAbove;
    OnlyItselfEqual(rules, rule);
    if CountAbove(rules, rule, true) < MAX_RULES_PER_INO {
      FewNotWeakerKeep(rules, rule);
    } else {
      FourStrongerDiscard(rules, rule);
    }
  }

  // ----- when the answer survives -----

  datatype Axis = ByAction | BySeverity

  function Level(rule: MonitorRule, axis: Axis): nat {
    if axis == ByAction then rule.action else rule.severity
  }

  /** A rule that the access hits and whose action, or severity, no hitting rule exceeds. */
  ghost predicate Top(rules: seq<MonitorRule>, p: Probe, axis: Axis, r: MonitorRule) {
    r in rules && Hits(r, p) && forall q | q in rules && Hits(q, p) :: Level(q, axis) <= Level(r, axis)
  }

  ghost predicate TopAction(rules: seq<MonitorRule>, p: Probe, r: MonitorRule) {
    Top(rules, p, ByAction, r)
  }

  ghost predicate TopSeverity(rules: seq<MonitorRule>, p: Probe, r: MonitorRule) {
    Top(rules, p, BySeverity, r)
  }

  predicate NothingHits(rules: seq<MonitorRule>, p: Probe) {
    forall r | r in rules :: !Hits(r, p)
  }

  /** The answer survives when a hitting rule of the highest action and one of the highest severity
      are kept, and only then. */
  lemma SurvivesIffTopsKept(rules: seq<MonitorRule>, p: Probe, kept: MatchResult, full: MatchResult)
    requires IsAnswer(Merged(rules), p, kept) && IsAnswer(rules, p, full)
    ensures kept == full <==>
              || NothingHits(rules, p)
              || (&& (exists r :: TopAction(rules, p, r) && r in Merged(rules))
                  && (exists r :: TopSeverity(rules, p, r) && r in Merged(rules)))
  {
    hide Hits;
    hide Merged;
    KeptAreConfigured(rules);
    hide Discarded;
    if !NothingHits(rules, p) && kept == full {
      var any :| any in Merged(rules) && Hits(any, p);
      var a := if kept.action == ACTION_LOG then any else KeptWithAction(rules, p, kept);
      var s := if kept.severity == SEVERITY_LOW then any else KeptWithSeverity(rules, p, kept);
      assert TopAction(rules, p, a) && TopSeverity(rules, p, s);
    }
  }

  ghost function KeptWithAction(rules: seq<MonitorRule>, p: Probe, kept: MatchResult): (r: MonitorRule)
    requires IsAnswer(Merged(rules), p, kept) && kept.action != ACTION_LOG
    ensures r in Merged(rules) && Hits(r, p) && r.action == kept.action
  {
    var r :| r in Merged(rules) && Hits(r, p) && r.action == kept.action;
    r
  }

  ghost function KeptWithSeverity(rules: seq<MonitorRule>, p: Probe, kept: MatchResult): (r: MonitorRule)
    requires IsAnswer(Merged(rules), p, kept) && kept.severity != SEVERITY_LOW
    ensures r in Merged(rules) && Hits(r, p) && r.severity == kept.severity
  {
    var r :| r in Merged(rules) && Hits(r, p) && r.severity == kept.severity;
    r
  }

  /** On a file whose rules are all differently strong, an access is answered as the configuration
      would if and only if it hits nothing, or some hitting rule of the highest action and some
      hitting rule of the highest severity each have fewer than four stronger rules. */
  lemma AnswerSurvivesIff(rules: seq<MonitorRule>, p: Probe, kept: MatchResult, full: MatchResult)
    requires AllDifferent(rules)
    requires IsAnswer(Merged(rules), p, kept) && IsAnswer(rules, p, full)
    ensures kept == full <==>
              || NothingHits(rules, p)
              || (&& (exists r :: TopAction(rules, p, r) && CountAbove(rules, r, true) < MAX_RULES_PER_INO)
                  && (exists r :: TopSeverity(rules, p, r) && CountAbove(rules, r, true) < MAX_RULES_PER_INO))
  {
    hide Hits;
    hide Merged;
    hide CountAbove;
    hide IsAnswer;
    hide AllDifferent;
    SurvivesIffTopsKept(rules, p, kept, full);
    forall r | r in rules
      ensures r in Merged(rules) <==> CountAbove(rules, r, true) < MAX_RULES_PER_INO
    {
      KeptIff(rules, r);
    }
  }

  /** On any file, equally strong rules included, it is enough that such rules have fewer than four
      others that are not weaker, and necessary that they have fewer than four stronger ones. */
  lemma AnswerSurvivesBetween(rules: seq<MonitorRule>, p: Probe, kept: MatchResult, full: MatchResult)
    requires IsAnswer(Merged(rules), p, kept) && IsAnswer(rules, p, full) && !NothingHits(rules, p)
    ensures && (exists r :: TopAction(rules, p, r) && CountAbove(rules, r, false) <= MAX_RULES_PER_INO)
            && (exists r :: TopSeverity(rules, p, r) && CountAbove(rules, r, false) <= MAX_RULES_PER_INO)
            ==> kept == full
    ensures kept == full ==>
              && (exists r :: TopAction(rules, p, r) && CountAbove(rules, r, true) < MAX_RULES_PER_INO)
              && (exists r :: TopSeverity(rules, p, r) && CountAbove(rules, r, true) < MAX_RULES_PER_INO)
  {
    hide Hits;
    hide Merged;
    hide CountAbove;
    hide IsAnswer;
    SurvivesIffTopsKept(rules, p, kept, full);
    forall r | r in rules
      ensures CountAbove(rules, r, false) <= MAX_RULES_PER_INO ==> r in Merged(rules)
      ensures r in Merged(rules) ==> CountAbove(rules, r, true) < MAX_RULES_PER_INO
    {
      if CountAbove(rules, r, false) <= MAX_RULES_PER_INO {
        FewNotWeakerKeep(rules, r);
      }
      if CountAbove(rules, r, true) >= MAX_RULES_PER_INO {
        FourStrongerDiscard(rules, r);
      }
    }
  }

  // ----- every order of a file's rules -----

  /** The access hits the rule, and it reaches the level. */
  predicate Reaches(r: MonitorRule, p: Probe, axis: Axis, level: nat) {
    Hits(r, p) && Level(r, axis) == level
  }

  /** The rules of a file that do not reach the level, or those that do, in order. */
  function Sift(rules: seq<MonitorRule>, p: Probe, axis: Axis, level: nat, reach: bool): (s: seq<MonitorRule>)
    ensures forall r :: r in s <==> r in rules && Reaches(r, p, axis, level) == reach
  {
    if rules == [] then []
    else
      var last := rules[|rules| - 1];
      assert rules == rules[..|rules| - 1] + [last];
      Sift(rules[..|rules| - 1], p, axis, level, reach) + if Reaches(last, p, axis, level) == reach then [last] else []
  }

  lemma {:induction false} SiftSplits(rules: seq<MonitorRule>, p: Probe, axis: Axis, level: nat)
    ensures multiset(Sift(rules, p, axis, level, false)) + multiset(Sift(rules, p, axis, level, true))
         == multiset(rules)
  {
    hide *;
    if rules == [] {
      SiftNothing(p, axis, level);
    } else {
      var front, last := rules[..|rules| - 1], rules[|rules| - 1];
      var no, yes := Sift(front, p, axis, level, false), Sift(front, p, axis, level, true);
      SiftSplits(front, p, axis, level);
      SiftLast(rules, p, axis, level);
      assert rules == front + [last];
      JoinsEither(no, yes, front, last);
    }
  }

  lemma SiftNothing(p: Probe, axis: Axis, level: nat)
    ensures Sift([], p, axis, level, false) == [] == Sift([], p, axis, level, true)
  {
  }

  lemma JoinsEither(no: seq<MonitorRule>, yes: seq<MonitorRule>, all: seq<MonitorRule>, rule: MonitorRule)
    requires multiset(no) + multiset(yes) == multiset(all)
    ensures multiset(no + [rule]) + multiset(yes) == multiset(all + [rule]) == multiset(no) + multiset(yes + [rule])
  {
    OneMore(no, rule);
    OneMore(yes, rule);
    OneMore(all, rule);
  }

  lemma SiftLast(rules: seq<MonitorRule>, p: Probe, axis: Axis, level: nat)
    requires rules != []
    ensures var front, last := rules[..|rules| - 1], rules[|rules| - 1];
      var no, yes := Sift(front, p, axis, level, false), Sift(front, p, axis, level, true);
      && Sift(rules, p, axis, level, false) == (if Reaches(last, p, axis, level) then no else no + [last])
      && Sift(rules, p, axis, level, true) == (if Reaches(last, p, axis, level) then yes + [last] else yes)
  {
  }

  lemma OneMore(rules: seq<MonitorRule>, rule: MonitorRule)
    ensures multiset(rules + [rule]) == multiset(rules) + multiset{rule}
  {
  }

  lemma {:induction false} CountConcat(a: seq<MonitorRule>, b: seq<MonitorRule>, bar: MonitorRule, strict: bool)
    ensures CountAbove(a + b, bar, strict) == CountAbove(a, bar, strict) + CountAbove(b, bar, strict)
    decreases |b|
  {
    if b == [] {
      assert a + b == a;
    } else {
      hide *;
      var n := |b| - 1;
      CountConcat(a, b[..n], bar, strict);
      assert b == b[..n] + [b[n]];
      assert a + b == (a + b[..n]) + [b[n]];
      CountAppend(a + b[..n], b[n], bar, strict);
      CountAppend(b[..n], b[n], bar, strict);
    }
  }

  lemma CountCut(rules: seq<MonitorRule>, i: nat, bar: MonitorRule, strict: bool)
    requires i < |rules|
    ensures CountAbove(rules[..i] + rules[i + 1..], bar, strict) + (if Above(rules[i], bar, strict) then 1 else 0)
         == CountAbove(rules, bar, strict)
  {
    hide CountAbove;
    CountConcat(rules[..i], rules[i + 1..], bar, strict);
    CountAppend(rules[..i], rules[i], bar, strict);
    CountConcat(rules[..i] + [rules[i]], rules[i + 1..], bar, strict);
    assert rules == rules[..i] + [rules[i]] + rules[i + 1..];
  }

  /** A part of the rules has no more above the bar than all of them. */
  lemma {:induction false} CountPart(part: seq<MonitorRule>, all: seq<MonitorRule>, bar: MonitorRule, strict: bool)
    requires multiset(part) <= multiset(all)
    ensures CountAbove(part, bar, strict) <= CountAbove(all, bar, strict)
    decreases |part|
  {
    hide Above;
    if part != [] {
      var n := |part| - 1;
      var front, last := part[..n], part[n];
      assert part == front + [last];
      assert last in multiset(all);
      var i :| 0 <= i < |all| && all[i] == last;
      var rest := all[..i] + all[i + 1..];
      assert all == all[..i] + [all[i]] + all[i + 1..];
      assert multiset(all) == multiset(rest) + multiset{last};
      OneMore(front, last);
      DropBoth(multiset(front), multiset(rest), last);
      CountPart(front, rest, bar, strict);
      CountCut(all, i, bar, strict);
    }
  }

  lemma DropBoth(a: multiset<MonitorRule>, b: multiset<MonitorRule>, rule: MonitorRule)
    requires a + multiset{rule} <= b + multiset{rule}
    ensures a <= b
  {
    forall r: MonitorRule
      ensures a[r] <= b[r]
    {
      assert (a + multiset{rule})[r] <= (b + multiset{rule})[r];
    }
  }

  /** Fewer than four rules that are not top on this axis are as strong as some top rule. */
  ghost predicate TopIsSafe(rules: seq<MonitorRule>, p: Probe, axis: Axis) {
    exists r :: Top(rules, p, axis, r)
             && CountAbove(Sift(rules, p, axis, Level(r, axis), false), r, false) < MAX_RULES_PER_INO
  }

  ghost predicate TopIsKept(rules: seq<MonitorRule>, p: Probe, axis: Axis) {
    exists r :: Top(rules, p, axis, r) && r in Merged(rules)
  }

  /** Such a rule is pushed out by its own kind only, so one of the kind is kept. */
  lemma SafeIsKept(rules: seq<MonitorRule>, p: Probe, axis: Axis)
    requires TopIsSafe(rules, p, axis)
    ensures TopIsKept(rules, p, axis)
  {
    hide Merged;
    hide Hits;
    hide CountAbove;
    hide Sift;
    var r :| Top(rules, p, axis, r)
          && CountAbove(Sift(rules, p, axis, Level(r, axis), false), r, false) < MAX_RULES_PER_INO;
    var kept, others := Merged(rules), Sift(rules, p, axis, Level(r, axis), false);
    KeptAreConfigured(rules);
    KeepsStrongest(rules);
    if r !in kept {
      DiscardedMeansFull(rules, r);
      KeptNotWeaker(rules, r);
      if !TopIsKept(rules, p, axis) {
        forall k | k in kept
          ensures !Reaches(k, p, axis, Level(r, axis))
        {
          assert !Top(rules, p, axis, k);
        }
        OthersHold(rules, kept, p, axis, Level(r, axis));
        CountPart(kept, others, r, false);
      }
    }
  }

  lemma DiscardedMeansFull(rules: seq<MonitorRule>, r: MonitorRule)
    requires r in Discarded(rules)
    ensures |Merged(rules)| == MAX_RULES_PER_INO
  {
    hide Merged;
    MergedSize(rules);
    FewDiscardNothing(rules);
  }

  lemma KeptNotWeaker(rules: seq<MonitorRule>, r: MonitorRule)
    requires r in Discarded(rules)
    ensures CountAbove(Merged(rules), r, false) == |Merged(rules)|
  {
    hide Merged;
    hide Discarded;
    KeepsStrongest(rules);
  }

  /** Rules of the file that do not reach the level are among the others, as often as they occur. */
  lemma OthersHold(rules: seq<MonitorRule>, part: seq<MonitorRule>, p: Probe, axis: Axis, level: nat)
    requires multiset(part) <= multiset(rules) && forall k | k in part :: !Reaches(k, p, axis, level)
    ensures multiset(part) <= multiset(Sift(rules, p, axis, level, false))
  {
    hide Reaches;
    hide Sift;
    SiftSplits(rules, p, axis, level);
    var no, yes := Sift(rules, p, axis, level, false), Sift(rules, p, axis, level, true);
    forall k: MonitorRule
      ensures multiset(part)[k] <= multiset(no)[k]
    {
      if k in multiset(part) {
        assert k in part && k !in yes;
        assert multiset(yes)[k] == 0;
      }
    }
  }

  /** Four rules as strong as every later one keep all of the later ones out. */
  lemma {:induction false} LaterKeptOut(first: seq<MonitorRule>, later: seq<MonitorRule>, bar: MonitorRule)
    requires CountAbove(first, bar, false) >= MAX_RULES_PER_INO
    requires forall r | r in later :: !Stronger(r, bar)
    ensures Merged(first + later) == Merged(first)
    decreases |later|
  {
    hide Merged;
    hide CountAbove;
    hide Admit;
    hide Stronger;
    if later == [] {
      assert first + later == first;
    } else {
      var n := |later| - 1;
      assert later == later[..n] + [later[n]];
      assert first + later == (first + later[..n]) + [later[n]];
      LaterKeptOut(first, later[..n], bar);
      MergedNext(first + later[..n], later[n]);
      KeptAbove(first, bar, false);
      MergedSize(first);
      RefusedByStrong(Merged(first), later[n], bar);
    }
  }

  lemma RefusedByStrong(kept: seq<MonitorRule>, rule: MonitorRule, bar: MonitorRule)
    requires |kept| == MAX_RULES_PER_INO == CountAbove(kept, bar, false) && !Stronger(rule, bar)
    ensures Admit(kept, rule) == kept
  {
    assert kept[Weakest(kept)] in kept;
    hide Weakest;
    hide CountAbove;
  }

  /** The strongest of the rules that are top on an axis. */
  lemma {:induction false} StrongestTop(tops: seq<MonitorRule>) returns (r: MonitorRule)
    requires tops != []
    ensures r in tops && forall q | q in tops :: !Stronger(q, r)
  {
    var n := |tops| - 1;
    assert tops == tops[..n] + [tops[n]];
    r := tops[n];
    if n > 0 {
      var s := StrongestTop(tops[..n]);
      if Stronger(s, r) {
        r := s;
      }
    }
  }

  /** Otherwise the rules that are not top, configured first, push all top ones out. */
  lemma UnsafeIsLost(rules: seq<MonitorRule>, p: Probe, axis: Axis) returns (order: seq<MonitorRule>)
    requires !TopIsSafe(rules, p, axis) && !NothingHits(rules, p)
    ensures multiset(order) == multiset(rules) && !TopIsKept(order, p, axis)
  {
    hide Merged;
    hide Hits;
    hide CountAbove;
    hide Stronger;
    hide Sift;
    var t := SomeTop(rules, p, axis);
    var level := Level(t, axis);
    var no, yes := Sift(rules, p, axis, level, false), Sift(rules, p, axis, level, true);
    assert t in yes;
    var r := StrongestTop(yes);
    assert Top(rules, p, axis, r);
    LaterKeptOut(no, yes, r);
    order := no + yes;
    SiftSplits(rules, p, axis, level);
    assert multiset(order) == multiset(no) + multiset(yes);
    SameMembers(order, rules);
    KeptAreConfigured(no);
    forall k | Top(order, p, axis, k)
      ensures k !in Merged(order)
    {
      assert Top(rules, p, axis, k);
      assert k !in no;
    }
  }

  lemma SameMembers(a: seq<MonitorRule>, b: seq<MonitorRule>)
    requires multiset(a) == multiset(b)
    ensures forall r :: r in a <==> r in b
  {
    forall r: MonitorRule
      ensures r in a <==> r in b
    {
      assert r in multiset(a) <==> r in multiset(b);
    }
  }

  lemma {:induction false} SomeTop(rules: seq<MonitorRule>, p: Probe, axis: Axis) returns (t: MonitorRule)
    requires !NothingHits(rules, p)
    ensures Top(rules, p, axis, t)
  {
    hide Hits;
    var n := |rules| - 1;
    var front := rules[..n];
    assert rules == front + [rules[n]];
    t := rules[n];
    if !NothingHits(front, p) {
      var s := SomeTop(front, p, axis);
      if !Hits(t, p) || Level(s, axis) > Level(t, axis) {
        t := s;
      }
    }
  }

  /** The kernel answers the access as the configuration would. */
  ghost predicate Survives(rules: seq<MonitorRule>, p: Probe) {
    forall kept, full :: IsAnswer(Merged(rules), p, kept) && IsAnswer(rules, p, full) ==> kept == full
  }

  lemma SurvivesIff(rules: seq<MonitorRule>, p: Probe)
    ensures Survives(rules, p) <==>
              NothingHits(rules, p) || (TopIsKept(rules, p, ByAction) && TopIsKept(rules, p, BySeverity))
  {
    hide Merged;
    hide IsAnswer;
    hide NothingHits;
    hide Hits;
    var k := SomeAnswer(Merged(rules), p);
    var f := SomeAnswer(rules, p);
    SurvivesIffTopsKept(rules, p, k, f);
    forall kept, full | IsAnswer(Merged(rules), p, kept) && IsAnswer(rules, p, full)
      ensures kept == k && full == f
    {
      AnswerIsUnique(Merged(rules), p, kept, k);
      AnswerIsUnique(rules, p, full, f);
    }
  }

  lemma {:induction false} SomeAnswer(rules: seq<MonitorRule>, p: Probe) returns (m: MatchResult)
    ensures IsAnswer(rules, p, m)
  {
    hide Hits;
    m := UNMATCHED;
    if rules != [] {
      var n := |rules| - 1;
      var before := SomeAnswer(rules[..n], p);
      AnswerGrows(rules[..n], rules[n], p, before);
      assert rules[..n] + [rules[n]] == rules;
      m := if Hits(rules[n], p)
           then MatchResult(Raise(before.action, rules[n].action), Raise(before.severity, rules[n].severity), true)
           else before;
    }
  }

  /** An access to a file is answered as the configuration would, whatever the order of the file's
      rules, equally strong ones included, if and only if it hits nothing, or some hitting rule of
      the highest action has fewer than four rules as strong among those that are not such rules
      themselves, and the same holds for the highest severity. */
  lemma SurvivesEveryOrderIff(rules: seq<MonitorRule>, p: Probe)
    ensures (forall order | multiset(order) == multiset(rules) :: Survives(order, p)) <==>
              NothingHits(rules, p) || (TopIsSafe(rules, p, ByAction) && TopIsSafe(rules, p, BySeverity))
  {
    hide Survives;
    hide TopIsSafe;
    hide TopIsKept;
    hide NothingHits;
    forall order | multiset(order) == multiset(rules)
      ensures NothingHits(order, p) == NothingHits(rules, p)
      ensures forall axis :: TopIsSafe(order, p, axis) == TopIsSafe(rules, p, axis)
    {
      SameMembers(order, rules);
      SameHits(order, rules, p);
      forall axis
        ensures TopIsSafe(order, p, axis) == TopIsSafe(rules, p, axis)
      {
        SameSafe(order, rules, p, axis);
        SameSafe(rules, order, p, axis);
      }
    }
    if NothingHits(rules, p) || (TopIsSafe(rules, p, ByAction) && TopIsSafe(rules, p, BySeverity)) {
      forall order | multiset(order) == multiset(rules)
        ensures Survives(order, p)
      {
        SurvivesIff(order, p);
        if !NothingHits(rules, p) {
          SafeIsKept(order, p, ByAction);
          SafeIsKept(order, p, BySeverity);
        }
      }
    } else {
      var axis := if TopIsSafe(rules, p, ByAction) then BySeverity else ByAction;
      var order := UnsafeIsLost(rules, p, axis);
      SurvivesIff(order, p);
      assert !Survives(order, p);
    }
  }

  lemma SameHits(a: seq<MonitorRule>, b: seq<MonitorRule>, p: Probe)
    requires forall r :: r in a <==> r in b
    ensures NothingHits(a, p) == NothingHits(b, p)
    ensures forall axis, r :: Top(a, p, axis, r) == Top(b, p, axis, r)
  {
    hide Hits;
  }

  lemma SameSafe(a: seq<MonitorRule>, b: seq<MonitorRule>, p: Probe, axis: Axis)
    requires multiset(a) == multiset(b)
    ensures TopIsSafe(a, p, axis) ==> TopIsSafe(b, p, axis)
  {
    if TopIsSafe(a, p, axis) {
      SafeElsewhere(a, b, p, axis);
    }
  }

  lemma SafeElsewhere(a: seq<MonitorRule>, b: seq<MonitorRule>, p: Probe, axis: Axis)
    requires multiset(a) == multiset(b) && TopIsSafe(a, p, axis)
    ensures TopIsSafe(b, p, axis)
  {
    hide Hits;
    hide CountAbove;
    hide Sift;
    hide Top;
    var r :| Top(a, p, axis, r) && CountAbove(Sift(a, p, axis, Level(r, axis), false), r, false) < MAX_RULES_PER_INO;
    SameMembers(a, b);
    SameHits(a, b, p);
    var level := Level(r, axis);
    SiftSplits(b, p, axis, level);
    var no, yes := Sift(b, p, axis, level, false), Sift(b, p, axis, level, true);
    assert multiset(no) <= multiset(a);
    OthersHold(a, no, p, axis, level);
    CountPart(no, Sift(a, p, axis, level, false), r, false);
  }
}
