/** The rule engine of src/detect/rule_engine.cpp: rules compiled into category buckets, and
    the prefiltered search for the rule an event triggers. */
module RuleEngine {
  import opened Options
  import opened RuleAst
  import opened RuleEval
  import opened RulePrefilter
  import opened OutputTemplate

  datatype Rule = Rule(name: string, priority: string, outputTemplate: string, sourceFile: string, condition: Cond)

  /** A compiled rule refers to its rule by load position. */
  datatype CompiledRule = CompiledRule(rule: nat, segs: seq<Seg>, etMask: bv32)

  datatype BuildError = BuildError(sourceFile: string, name: string, reason: TemplateError)

  datatype MatchResult = MatchResult(rule: nat, output: string)

  const NO_RULES: map<Bucket, seq<CompiledRule>> := map[
    FileBucket := [], ProcessBucket := [], NetworkBucket := [], DnsBucket := [], PrivBucket := [], NsBucket := [],
    AllBucket := []]

  // ----- what evaluation means, without filters -----

  /** Rule `i` holds on the event. */
  predicate Holds(rules: seq<Rule>, ev: EventView, i: nat)
    requires i < |rules|
  {
    Eval(ev, rules[i].condition)
  }

  /** Rule `i` is filed under bucket `b` and holds. */
  predicate HoldsIn(rules: seq<Rule>, ev: EventView, b: Bucket, i: nat)
    requires i < |rules|
  {
    ExtractBucket(rules[i].condition) == b && Holds(rules, ev, i)
  }

  /** The first rule in load order that is filed under `b` and holds, searching from `i`. */
  function FirstIn(rules: seq<Rule>, ev: EventView, b: Bucket, i: nat): (r: Option<nat>)
    requires i <= |rules|
    ensures r.Some? ==> i <= r.value < |rules| && HoldsIn(rules, ev, b, r.value)
    ensures r.Some? ==> forall j | i <= j < r.value :: !HoldsIn(rules, ev, b, j)
    ensures r.None? ==> forall j | i <= j < |rules| :: !HoldsIn(rules, ev, b, j)
    decreases |rules| - i
  {
    if i == |rules| then None
    else if HoldsIn(rules, ev, b, i) then Some(i)
    else FirstIn(rules, ev, b, i + 1)
  }

  /** The rule an event triggers: the first of its own bucket, else the first of the common one. */
  function Pick(rules: seq<Rule>, ev: EventView): (r: Option<nat>)
    ensures r.Some? ==> r.value < |rules|
  {
    var own := FirstIn(rules, ev, BucketOfEventType(ev.eventType), 0);
    if own.Some? then own else FirstIn(rules, ev, AllBucket, 0)
  }

  function OutputOf(rule: Rule, ev: EventView): Option<string> {
    match Compile(rule.outputTemplate)
    case Ok(segs) => Some(Rendered(ev, rule.name, rule.priority, segs))
    case Err(_) => None
  }

  /** The first rule of the list, from `i`, whose template does not compile. */
  function FirstBadTemplate(rules: seq<Rule>, i: nat): Option<BuildError>
    requires i <= |rules|
    decreases |rules| - i
  {
    if i == |rules| then None
    else
      match Compile(rules[i].outputTemplate)
      case Err(e) => Some(BuildError(rules[i].sourceFile, rules[i].name, e))
      case Ok(_) => FirstBadTemplate(rules, i + 1)
  }

  /** The compiled forms of the rules filed under `b` among the first `n`, in load order, none
      missing. */
  ghost predicate BucketOk(rules: seq<Rule>, crs: seq<CompiledRule>, b: Bucket, n: nat)
    requires n <= |rules|
  {
    && (forall k | 0 <= k < |crs| :: crs[k].rule < n && CompiledFrom(rules[crs[k].rule], crs[k], b))
    && (forall k, l | 0 <= k < l < |crs| :: crs[k].rule < crs[l].rule)
    && (forall i | 0 <= i < n && ExtractBucket(rules[i].condition) == b :: IsListed(crs, i))
  }

  ghost predicate CompiledFrom(rule: Rule, cr: CompiledRule, b: Bucket) {
    && ExtractBucket(rule.condition) == b
    && cr.etMask == NecessaryMask(rule.condition)
    && Compile(rule.outputTemplate) == Ok(cr.segs)
  }

  ghost predicate IsListed(crs: seq<CompiledRule>, i: nat) {
    exists k | 0 <= k < |crs| :: crs[k].rule == i
  }

  lemma BucketAppends(rules: seq<Rule>, crs: seq<CompiledRule>, b: Bucket, n: nat, cr: CompiledRule)
    requires n < |rules| && BucketOk(rules, crs, b, n)
    requires cr.rule == n && CompiledFrom(rules[n], cr, b)
    ensures BucketOk(rules, crs + [cr], b, n + 1)
  {
    hide ExtractBucket;
    hide CompiledFrom;
    var grown := crs + [cr];
    forall i | 0 <= i < n + 1 && ExtractBucket(rules[i].condition) == b
      ensures IsListed(grown, i)
    {
      if i < n {
        assert IsListed(crs, i);
        var k :| 0 <= k < |crs| && crs[k].rule == i;
        assert grown[k].rule == i;
      } else {
        assert grown[|crs|].rule == i;
      }
    }
  }

  lemma BucketSkips(rules: seq<Rule>, crs: seq<CompiledRule>, b: Bucket, n: nat)
    requires n < |rules| && BucketOk(rules, crs, b, n) && ExtractBucket(rules[n].condition) != b
    ensures BucketOk(rules, crs, b, n + 1)
  {
    hide ExtractBucket;
    hide CompiledFrom;
    hide IsListed;
  }

  lemma CompiledHere(rule: Rule, cr: CompiledRule)
    requires Compile(rule.outputTemplate) == Ok(cr.segs) && cr.etMask == NecessaryMask(rule.condition)
    ensures CompiledFrom(rule, cr, ExtractBucket(rule.condition))
  {
    hide Compile;
    hide ExtractBucket;
    hide NecessaryMask;
  }

  lemma NoRulesOk(rules: seq<Rule>, b: Bucket)
    ensures b in NO_RULES && BucketOk(rules, NO_RULES[b], b, 0)
  {
    match b
    case FileBucket =>
    case _ =>
  }

  /** The first compiled rule of a bucket that holds is the first rule in load order that is
      filed there and holds. */
  lemma FirstOfBucket(rules: seq<Rule>, crs: seq<CompiledRule>, view: EventView, b: Bucket, k: nat)
    requires BucketOk(rules, crs, b, |rules|) && k < |crs|
    requires Holds(rules, view, crs[k].rule)
    requires forall l | 0 <= l < k :: !Holds(rules, view, crs[l].rule)
    ensures FirstIn(rules, view, b, 0) == Some(crs[k].rule)
  {
    hide Holds;
    hide ExtractBucket;
    hide NecessaryMask;
    hide Compile;
    var i := crs[k].rule;
    assert CompiledFrom(rules[i], crs[k], b);
    assert HoldsIn(rules, view, b, i);
    var j := FirstIn(rules, view, b, 0).value;
    assert j <= i;
    assert IsListed(crs, j);
    var l :| 0 <= l < |crs| && crs[l].rule == j;
    assert l <= k;
  }

  lemma NoneOfBucket(rules: seq<Rule>, crs: seq<CompiledRule>, view: EventView, b: Bucket)
    requires BucketOk(rules, crs, b, |rules|)
    requires forall l | 0 <= l < |crs| :: !Holds(rules, view, crs[l].rule)
    ensures FirstIn(rules, view, b, 0).None?
  {
    hide Holds;
    hide ExtractBucket;
    var first := FirstIn(rules, view, b, 0);
    assert first.Some? ==> IsListed(crs, first.value);
  }

  class Engine {
    var rules: seq<Rule>
    var buckets: map<Bucket, seq<CompiledRule>>

    ghost predicate Built(n: nat)
      requires n <= |rules|
      reads this
    {
      forall b: Bucket :: b in buckets && BucketOk(rules, buckets[b], b, n)
    }

    constructor ()
      ensures rules == [] && Built(0)
    {
      rules := [];
      buckets := NO_RULES;
      new;
      forall b: Bucket ensures b in NO_RULES && BucketOk(rules, NO_RULES[b], b, 0) { NoRulesOk(rules, b); }
    }

    /** Takes over the rules and compiles them. Fails with the first rule whose template does
        not compile. */
    method Build(newRules: seq<Rule>) returns (err: Option<BuildError>)
      modifies this
      ensures rules == newRules
      ensures err == FirstBadTemplate(newRules, 0)
      ensures err.None? ==> Built(|rules|)
    {
      hide Compile;
      hide ExtractBucket;
      hide NecessaryMask;
      hide BucketOk;
      hide CompiledFrom;
      rules := newRules;
      buckets := NO_RULES;
      forall b: Bucket ensures b in NO_RULES && BucketOk(rules, NO_RULES[b], b, 0) { NoRulesOk(rules, b); }
      var i := 0;
      while i < |rules|
        invariant i <= |rules| && rules == newRules
        invariant Built(i)
        invariant FirstBadTemplate(rules, 0) == FirstBadTemplate(rules, i)
      {
        var segs := ParseOutputTemplate(rules[i].outputTemplate);
        if segs.Err? {
          return Some(BuildError(rules[i].sourceFile, rules[i].name, segs.error));
        }
        var cr := CompiledRule(i, segs.value, NecessaryMask(rules[i].condition));
        var b := ExtractBucket(rules[i].condition);
        forall c: Bucket
          ensures c in buckets && BucketOk(rules, if b == c then buckets[c] + [cr] else buckets[c], c, i + 1)
        {
          if b == c {
            CompiledHere(rules[i], cr);
            BucketAppends(rules, buckets[c], c, i, cr);
          } else {
            BucketSkips(rules, buckets[c], c, i);
          }
        }
        buckets := buckets[b := buckets[b] + [cr]];
        i := i + 1;
      }
      err := None;
    }

    /** Scans one bucket in order, skipping rules whose mask excludes the event's type. */
    method ScanBucket(view: EventView, b: Bucket) returns (hit: Option<nat>, segs: seq<Seg>)
      requires Built(|rules|)
      ensures hit == FirstIn(rules, view, b, 0)
      ensures hit.Some? ==> Compile(rules[hit.value].outputTemplate) == Ok(segs)
    {
      hide Eval;
      hide Compile;
      hide ExtractBucket;
      hide NecessaryMask;
      hide EventTypeBit;
      hide FirstIn;
      var etBit := EventTypeBit(view.eventType);
      var crs := buckets[b];
      var k := 0;
      while k < |crs|
        invariant k <= |crs|
        invariant forall l | 0 <= l < k :: !Holds(rules, view, crs[l].rule)
      {
        var cr := crs[k];
        if cr.etMask & etBit != 0 {
          if Eval(view, rules[cr.rule].condition) {
            FirstOfBucket(rules, crs, view, b, k);
            return Some(cr.rule), cr.segs;
          }
        } else if Eval(view, rules[cr.rule].condition) {
          MaskSound(view, rules[cr.rule].condition);
        }
        k := k + 1;
      }
      NoneOfBucket(rules, crs, view, b);
      hit, segs := None, [];
    }

    /** The source's `Evaluate`: own bucket, then the common one, first hit rendered. */
    method Evaluate(view: EventView) returns (out: Option<MatchResult>)
      requires Built(|rules|)
      ensures out.Some? <==> Pick(rules, view).Some?
      ensures out.Some? ==> Some(out.value.rule) == Pick(rules, view)
      ensures out.Some? ==> Some(out.value.output) == OutputOf(rules[out.value.rule], view)
    {
      hide FirstIn;
      hide Compile;
      hide BucketOfEventType;
      hide SegOutput;
      hide BucketOk;
      var b := BucketOfEventType(view.eventType);
      var hit, segs := ScanBucket(view, b);
      if hit.None? && b != AllBucket {
        hit, segs := ScanBucket(view, AllBucket);
      }
      if hit.None? {
        return None;
      }
      var rule := rules[hit.value];
      var output := "";
      var i := 0;
      while i < |segs|
        invariant i <= |segs|
        invariant output == Rendered(view, rule.name, rule.priority, segs[..i])
      {
        assert segs[..i + 1][..i] == segs[..i];
        output := output + SegOutput(view, rule.name, rule.priority, segs[i]);
        i := i + 1;
      }
      assert segs[..i] == segs;
      out := Some(MatchResult(hit.value, output));
    }
  }

  // ----- the filtered search against the plain scan -----

  /** The first rule in load order that holds, with no filter at all. */
  function FirstHit(rules: seq<Rule>, ev: EventView, i: nat): (r: Option<nat>)
    requires i <= |rules|
    ensures r.Some? ==> i <= r.value < |rules| && Holds(rules, ev, r.value)
    ensures r.Some? ==> forall j | i <= j < r.value :: !Holds(rules, ev, j)
    ensures r.None? ==> forall j | i <= j < |rules| :: !Holds(rules, ev, j)
    decreases |rules| - i
  {
    if i == |rules| then None else if Holds(rules, ev, i) then Some(i) else FirstHit(rules, ev, i + 1)
  }

  /** Evaluation triggers exactly when some loaded rule's condition holds: no filter ever
      skips a rule that holds. */
  lemma PickIffSomeRuleHolds(rules: seq<Rule>, ev: EventView)
    ensures Pick(rules, ev).Some? <==> exists i | 0 <= i < |rules| :: Holds(rules, ev, i)
    ensures Pick(rules, ev).Some? ==> Holds(rules, ev, Pick(rules, ev).value)
  {
    hide Eval;
    hide ExtractBucket;
    hide BucketOfEventType;
    forall i | 0 <= i < |rules| && Holds(rules, ev, i)
      ensures Pick(rules, ev).Some?
    {
      BucketSound(ev, rules[i].condition);
      assert HoldsIn(rules, ev, BucketOfEventType(ev.eventType), i) || HoldsIn(rules, ev, AllBucket, i);
    }
  }

  /** The picked rule is the first that holds in load order except when a rule of the common
      bucket that holds was loaded before the first one of the event's own bucket: buckets
      are searched one after the other. */
  lemma PickIsFirstIff(rules: seq<Rule>, ev: EventView)
    ensures
      var own := FirstIn(rules, ev, BucketOfEventType(ev.eventType), 0);
      var common := FirstIn(rules, ev, AllBucket, 0);
      (Pick(rules, ev) == FirstHit(rules, ev, 0)) <==> !(own.Some? && common.Some? && common.value < own.value)
  {
    hide Eval;
    hide ExtractBucket;
    hide BucketOfEventType;
    var first := FirstHit(rules, ev, 0);
    var own := FirstIn(rules, ev, BucketOfEventType(ev.eventType), 0);
    var common := FirstIn(rules, ev, AllBucket, 0);
    PickIffSomeRuleHolds(rules, ev);
    if first.Some? {
      BucketSound(ev, rules[first.value].condition);
      assert HoldsIn(rules, ev, BucketOfEventType(ev.eventType), first.value)
          || HoldsIn(rules, ev, AllBucket, first.value);
    }
    if own.Some? {
      assert Holds(rules, ev, own.value);
    }
    if common.Some? {
      assert Holds(rules, ev, common.value);
    }
  }

  /** Two rules where load order and bucket order disagree: a rule of the common bucket that
      always holds, then a rule for the event's own type. The second one is picked. */
  lemma LoadOrderNotKept(ev: EventView, always: Rule, own: Rule)
    requires ev.eventType == "file.read"
    requires always.condition == Compare(Eq, Str("a"), Str("a"))
    requires own.condition == Compare(Eq, Field(EventType), Str("file.read"))
    ensures FirstHit([always, own], ev, 0) == Some(0)
    ensures Pick([always, own], ev) == Some(1)
  {
    var rules := [always, own];
    assert Holds(rules, ev, 0) && Holds(rules, ev, 1);
    BucketSound(ev, own.condition);
    FileReadBucket();
    assert HoldsIn(rules, ev, FileBucket, 1) && !HoldsIn(rules, ev, FileBucket, 0);
  }

  lemma FileReadBucket()
    ensures BucketOfEventType("file.read") == FileBucket
  {
    assert "file.read"[4] == '.' && "file.read"[3] == 'e' && "file.read"[2] == 'l' && "file.read"[1] == 'i'
        && "file.read"[0] == 'f';
    assert "file.read"[1..][0] == 'i' && "file.read"[1..][1..] == "file.read"[2..]
        && "file.read"[2..][1..] == "file.read"[3..]
      && "file.read"[3..][1..] == "file.read"[4..];
    assert DotAt("file.read"[4..]) == 0;
    assert DotAt("file.read"[3..]) == 1;
    assert DotAt("file.read"[2..]) == 2;
    assert DotAt("file.read"[1..]) == 3;
    assert DotAt("file.read") == 4;
    assert "file.read"[..4] == "file";
  }
}
