/** What docs/rule-dsl-v1.md says a comparison of a field with a literal means, against the
    evaluator of src/detect/rule_engine.cpp. */
module RuleMeaning {
  import opened Options
  import opened RuleAst
  import opened RuleEval

  /** A text against a literal's spelling, in terms of what surrounds it. */
  ghost predicate TextMeans(op: CmpOp, text: string, literal: string) {
    match op
    case Eq => text == literal
    case Ne => text != literal
    case Contains => exists before: string, after: string :: text == before + literal + after
    case StartsWith => exists after: string :: text == literal + after
    case In => false
  }

  /** A number, present or missing, against a literal: only equality and inequality, only with a
      number, and never true of a missing one. */
  predicate NumberMeans(op: CmpOp, number: Option<int>, literal: Operand) {
    match number
    case None => false
    case Some(n) => literal.Num? && (if op == Eq then n == literal.num else op == Ne && n != literal.num)
  }

  ghost predicate ValueMeans(id: FieldId, v: FieldVal, op: CmpOp, literal: Operand) {
    if IsNumber(id) then NumberMeans(op, if v.has then Some(v.num) else None, literal)
    else TextMeans(op, if v.has then v.str else "", Spelling(literal))
  }

  lemma FoundBetween(before: string, needle: string, after: string)
    ensures Contained(needle, before + needle + after)
  {
    var hay := before + needle + after;
    assert hay[|before|..] == needle + after;
    assert needle <= hay[|before|..];
  }

  lemma SplitAt(needle: string, hay: string, i: nat)
    requires i <= |hay| && needle <= hay[i..]
    ensures hay == hay[..i] + needle + hay[i + |needle|..]
  {
    assert hay[i..] == needle + hay[i..][|needle|..];
  }

  lemma ContainedMeans(needle: string, hay: string)
    ensures Contained(needle, hay) <==> exists before: string, after: string :: hay == before + needle + after
  {
    if Contained(needle, hay) {
      var i :| 0 <= i <= |hay| && needle <= hay[i..];
      SplitAt(needle, hay, i);
    }
    hide Contained;
    if exists before: string, after: string :: hay == before + needle + after {
      var before, after: string :| hay == before + needle + after;
      FoundBetween(before, needle, after);
    }
  }

  lemma PrefixMeans(prefix: string, text: string)
    ensures prefix <= text <==> exists after: string :: text == prefix + after
  {
    if prefix <= text {
      assert text == prefix + text[|prefix|..];
    }
  }

  lemma FieldMatchesMeans(id: FieldId, v: FieldVal, op: CmpOp, literal: Operand)
    requires IsLiteral(literal)
    ensures FieldMatches(id, v, op, ItemValue(literal)) <==> ValueMeans(id, v, op, literal)
  {
    hide Contained;
    var s := if v.has then v.str else "";
    ContainedMeans(Spelling(literal), s);
    PrefixMeans(Spelling(literal), s);
  }

  /** The elements of an array field, in order. */
  function Elements(ev: EventView, id: FieldId): seq<FieldVal>
    requires IsArrayElem(id)
  {
    if id == NsNames then seq(|ev.nsNames|, i requires 0 <= i < |ev.nsNames| => Text(ev.nsNames[i]))
    else seq(|ev.ancestors|, i requires 0 <= i < |ev.ancestors| => AncestorValue(ev.ancestors[i], id))
  }

  lemma {:induction false} AnyAncestorMeans(ancestors: seq<AncestorView>, id: FieldId, op: CmpOp, lit: Value)
    ensures AnyAncestor(ancestors, id, op, lit)
      <==> exists i | 0 <= i < |ancestors| :: FieldMatches(id, AncestorValue(ancestors[i], id), op, lit)
  {
    hide FieldMatches;
    hide AncestorValue;
    if ancestors != [] {
      AnyAncestorMeans(ancestors[1..], id, op, lit);
      assert forall i | 0 < i < |ancestors| :: ancestors[i] == ancestors[1..][i - 1];
    }
  }

  lemma {:induction false} AnyNameMeans(names: seq<string>, op: CmpOp, lit: Value)
    ensures AnyName(names, op, lit) <==> exists i | 0 <= i < |names| :: FieldMatches(NsNames, Text(names[i]), op, lit)
  {
    hide FieldMatches;
    hide Text;
    if names != [] {
      AnyNameMeans(names[1..], op, lit);
      assert forall i | 0 < i < |names| :: names[i] == names[1..][i - 1];
    }
  }

  lemma AnyElementMeans(ev: EventView, id: FieldId, op: CmpOp, lit: Value)
    requires IsArrayElem(id)
    ensures AnyElementMatches(ev, id, op, lit)
      <==> exists i | 0 <= i < |Elements(ev, id)| :: FieldMatches(id, Elements(ev, id)[i], op, lit)
  {
    hide FieldMatches;
    hide AncestorValue;
    hide Text;
    var es := Elements(ev, id);
    if id == NsNames {
      AnyNameMeans(ev.nsNames, op, lit);
      assert forall i | 0 <= i < |es| :: es[i] == Text(ev.nsNames[i]);
    } else {
      AnyAncestorMeans(ev.ancestors, id, op, lit);
      assert forall i | 0 <= i < |es| :: es[i] == AncestorValue(ev.ancestors[i], id);
    }
  }

  /** Evaluating a field against a literal gives what the documentation says: a missing text is
      empty, a missing number makes every comparison false, `contains` and `startswith` look for
      the spelling, and an array field holds when some element does. */
  lemma ComparisonMeans(ev: EventView, id: FieldId, op: CmpOp, literal: Operand)
    requires IsLiteral(literal)
    ensures Eval(ev, Compare(op, Field(id), literal)) <==>
              if IsArrayElem(id) then
                exists i | 0 <= i < |Elements(ev, id)| :: ValueMeans(id, Elements(ev, id)[i], op, literal)
              else ValueMeans(id, ResolveScalar(ev, id).value, op, literal)
  {
    hide *;
    EvalIsTest(ev, id, op, literal);
    if IsArrayElem(id) {
      TestIsAny(ev, id, op, ItemValue(literal));
      forall i | 0 <= i < |Elements(ev, id)|
        ensures FieldMatches(id, Elements(ev, id)[i], op, ItemValue(literal))
            <==> ValueMeans(id, Elements(ev, id)[i], op, literal)
      {
        FieldMatchesMeans(id, Elements(ev, id)[i], op, literal);
      }
    } else {
      TestIsMatch(ev, id, op, ItemValue(literal));
      FieldMatchesMeans(id, ResolveScalar(ev, id).value, op, literal);
    }
  }

  lemma EvalIsTest(ev: EventView, id: FieldId, op: CmpOp, literal: Operand)
    requires IsLiteral(literal)
    ensures Eval(ev, Compare(op, Field(id), literal)) <==> FieldTest(ev, id, op, ItemValue(literal))
  {
    hide FieldTest;
    hide ResolveScalar;
  }

  lemma TestIsAny(ev: EventView, id: FieldId, op: CmpOp, lit: Value)
    requires IsArrayElem(id)
    ensures FieldTest(ev, id, op, lit)
      <==> exists i | 0 <= i < |Elements(ev, id)| :: FieldMatches(id, Elements(ev, id)[i], op, lit)
  {
    hide FieldMatches;
    hide ResolveScalar;
    hide AnyElementMatches;
    AnyElementMeans(ev, id, op, lit);
  }

  lemma TestIsMatch(ev: EventView, id: FieldId, op: CmpOp, lit: Value)
    requires !IsArrayElem(id)
    ensures FieldTest(ev, id, op, lit) <==> FieldMatches(id, ResolveScalar(ev, id).value, op, lit)
  {
    hide FieldMatches;
    hide ResolveScalar;
  }

  // ----- when `!=` is the negation of `=` -----

  /** A present value equals a literal of its kind. */
  predicate EqualsLiteral(id: FieldId, v: FieldVal, literal: Operand) {
    if IsNumber(id) then literal.Num? && v.num == literal.num else v.str == Spelling(literal)
  }

  /** The literal is of the field's kind. */
  predicate KindFits(id: FieldId, literal: Operand) {
    IsNumber(id) ==> literal.Num?
  }

  predicate AllAgree(id: FieldId, elements: seq<FieldVal>, literal: Operand) {
    forall i, j | 0 <= i < |elements| && 0 <= j < |elements| ::
      EqualsLiteral(id, elements[i], literal) == EqualsLiteral(id, elements[j], literal)
  }

  /** On a scalar field `!=` is the negation of `=` exactly when the field is a text, or a present
      number compared with a number: on a missing number both are false. */
  lemma ScalarNotEqualIff(ev: EventView, id: FieldId, literal: Operand)
    requires IsLiteral(literal) && !IsArrayElem(id)
    ensures Eval(ev, Compare(Ne, Field(id), literal)) == Eval(ev, Not(Compare(Eq, Field(id), literal)))
      <==> !IsNumber(id) || (ResolveScalar(ev, id).value.has && literal.Num?)
  {
    hide ResolveScalar;
    ComparisonMeans(ev, id, Eq, literal);
    ComparisonMeans(ev, id, Ne, literal);
    hide EvalCompare;
  }

  lemma ElementMeans(ev: EventView, id: FieldId, literal: Operand, i: nat)
    requires IsArrayElem(id) && IsLiteral(literal) && i < |Elements(ev, id)|
    ensures var v := Elements(ev, id)[i];
      && (ValueMeans(id, v, Eq, literal) <==> KindFits(id, literal) && EqualsLiteral(id, v, literal))
      && (ValueMeans(id, v, Ne, literal) <==> KindFits(id, literal) && !EqualsLiteral(id, v, literal))
  {
  }

  /** On an array field each operator asks for some element, so `!=` is the negation of `=` exactly
      when there are elements, the literal is of their kind, and they agree on equalling it: with
      no element both are false, with a disagreement both are true. */
  lemma ArrayNotEqualIff(ev: EventView, id: FieldId, literal: Operand)
    requires IsLiteral(literal) && IsArrayElem(id)
    ensures Eval(ev, Compare(Ne, Field(id), literal)) == Eval(ev, Not(Compare(Eq, Field(id), literal)))
      <==> Elements(ev, id) != [] && KindFits(id, literal) && AllAgree(id, Elements(ev, id), literal)
  {
    hide *;
    ComparisonMeans(ev, id, Eq, literal);
    ComparisonMeans(ev, id, Ne, literal);
    NotIsNegation(ev, Compare(Eq, Field(id), literal));
    var es := Elements(ev, id);
    forall i | 0 <= i < |es|
      ensures ValueMeans(id, es[i], Eq, literal) <==> KindFits(id, literal) && EqualsLiteral(id, es[i], literal)
      ensures ValueMeans(id, es[i], Ne, literal) <==> KindFits(id, literal) && !EqualsLiteral(id, es[i], literal)
    {
      ElementMeans(ev, id, literal, i);
    }
    AgreeIff(id, es, literal);
  }

  lemma NotIsNegation(ev: EventView, c: Cond)
    ensures Eval(ev, Not(c)) == !Eval(ev, c)
  {
  }

  lemma AgreeIff(id: FieldId, es: seq<FieldVal>, literal: Operand)
    ensures es != [] && AllAgree(id, es, literal) <==>
              (exists i | 0 <= i < |es| :: EqualsLiteral(id, es[i], literal))
              != (exists i | 0 <= i < |es| :: !EqualsLiteral(id, es[i], literal))
  {
    hide EqualsLiteral;
    if es != [] {
      assert EqualsLiteral(id, es[0], literal) || !EqualsLiteral(id, es[0], literal);
    }
  }

  /** Both halves together, for every field. */
  lemma NotEqualIsNegationIff(ev: EventView, id: FieldId, literal: Operand)
    requires IsLiteral(literal)
    ensures Eval(ev, Compare(Ne, Field(id), literal)) == Eval(ev, Not(Compare(Eq, Field(id), literal)))
      <==> KindFits(id, literal)
           && if IsArrayElem(id) then Elements(ev, id) != [] && AllAgree(id, Elements(ev, id), literal)
              else IsNumber(id) ==> ResolveScalar(ev, id).value.has
  {
    hide Eval;
    hide ResolveScalar;
    hide Elements;
    hide AllAgree;
    if IsArrayElem(id) {
      ArrayNotEqualIff(ev, id, literal);
    } else {
      ScalarNotEqualIff(ev, id, literal);
    }
  }
}
