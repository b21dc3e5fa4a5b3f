/** Every tree the parser returns is well-formed, whatever the text; with the round trip this
    makes the well-formed trees exactly the parser's image. */
module ConditionSafety {
  import opened Decimal
  import opened Options
  import opened RuleAst
  import opened ConditionLexer
  import opened ConditionGrammar
  import opened ConditionPrinter
  import opened ConditionRoundTrip

  /** Tokens the lexer can produce. */
  predicate Lexed(t: Token) {
    t != End && (t.Bare? ==> IsWord(t.text) || t.text == "\"")
  }

  predicate AllLexed(ts: seq<Token>) {
    forall i | 0 <= i < |ts| :: Lexed(ts[i])
  }

  lemma {:induction false} WordIsBare(s: string)
    ensures AllBare(s[..WordLength(s)])
  {
    if s != [] && IsBareChar(s[0]) {
      WordIsBare(s[1..]);
      assert s[..WordLength(s)][1..] == s[1..][..WordLength(s[1..])];
      forall i | 0 <= i < WordLength(s)
        ensures IsBareChar(s[i])
      {
        if i > 0 {
          assert s[i] == s[1..][..WordLength(s[1..])][i - 1];
        }
      }
    }
  }

  lemma TokenLexed(s: string)
    requires s != [] && !IsSpace(s[0])
    ensures Lexed(TokenAt(s).0)
  {
    WordIsBare(s);
  }

  lemma {:induction false} LexLexed(s: string)
    ensures AllLexed(Lex(s))
    decreases |s|
  {
    hide Lexed;
    var t := SkipSpaces(s);
    if t != [] {
      TokenLexed(t);
      LexLexed(t[TokenAt(t).1..]);
    }
  }

  // ----- the grammar functions return well-formed parts -----

  lemma WordOperandWellFormed(word: string, forceLiteral: bool)
    requires IsWord(word) && !IsKeyword(word)
    ensures match WordOperand(word, forceLiteral)
      case Ok(op) => WellFormedScalar(op, forceLiteral)
      case Err(_) => true
  {
  }

  lemma OperandWellFormed(ts: seq<Token>, forceLiteral: bool)
    requires AllLexed(ts)
    ensures match ParseOperand(ts, forceLiteral)
      case Ok((op, rest)) => WellFormedScalar(op, forceLiteral) && AllLexed(rest)
      case Err(_) => true
  {
    hide WordOperand;
    if ts != [] && ts[0].Bare? && !IsKeyword(ts[0].text) && ts[0].text != "\"" {
      WordOperandWellFormed(ts[0].text, forceLiteral);
    }
  }

  lemma {:induction false} ItemsWellFormed(acc: seq<Operand>, ts: seq<Token>, forceLiteral: bool)
    requires AllLexed(ts) && forall i | 0 <= i < |acc| :: WellFormedLiteral(acc[i], forceLiteral)
    ensures match ParseItems(acc, ts, forceLiteral)
      case Ok((op, rest)) => WellFormedRhs(In, op, forceLiteral) && AllLexed(rest)
      case Err(_) => true
    decreases |ts|
  {
    hide ParseOperand;
    hide WellFormedLiteral;
    hide Lexed;
    OperandWellFormed(ts, forceLiteral);
    match ParseOperand(ts, forceLiteral)
    case Err(_) =>
    case Ok((elem, rest)) =>
      if !elem.Field? && Head(rest) == Comma {
        ItemsWellFormed(acc + [elem], Rest(rest), forceLiteral);
      }
  }

  lemma ComparisonWellFormed(ts: seq<Token>)
    requires AllLexed(ts)
    ensures match ParseComparison(ts)
      case Ok((c, rest)) => WellFormed(c) && AllLexed(rest)
      case Err(_) => true
  {
    hide ParseOperand;
    hide ParseItems;
    hide WellFormedScalar;
    hide WellFormedLiteral;
    hide Lexed;
    OperandWellFormed(ts, false);
    match ParseOperand(ts, false)
    case Err(_) =>
    case Ok((lhs, afterLhs)) =>
      var forceLiteral := lhs == Field(EventType);
      var afterOp := Rest(afterLhs);
      if Head(afterOp) == LParen {
        ItemsWellFormed([], Rest(afterOp), forceLiteral);
      } else {
        OperandWellFormed(afterOp, forceLiteral);
      }
  }

  /** The result of a grammar function on conditions is well-formed. */
  predicate GoodResult(r: Parsed<Cond>) {
    match r
    case Ok((c, rest)) => WellFormed(c) && AllLexed(rest)
    case Err(_) => true
  }

  lemma {:induction false} NotWellFormed(ts: seq<Token>)
    requires AllLexed(ts)
    ensures GoodResult(ParseNot(ts))
    decreases |ts|, 0
  {
    hide ParseComparison;
    hide ParseOr;
    hide Lexed;
    if Head(ts) == Bare("not") {
      NotWellFormed(Rest(ts));
    } else if Head(ts) == LParen {
      OrWellFormed(Rest(ts));
    } else {
      ComparisonWellFormed(ts);
    }
  }

  lemma {:induction false} AndWellFormed(ts: seq<Token>)
    requires AllLexed(ts)
    ensures GoodResult(ParseAnd(ts))
    decreases |ts|, 2
  {
    hide ParseNot;
    hide Lexed;
    NotWellFormed(ts);
    match ParseNot(ts)
    case Err(_) =>
    case Ok((lhs, rest)) =>
      if Head(rest) == Bare("and") {
        AndMoreWellFormed([lhs], rest);
      }
  }

  lemma {:induction false} AndMoreWellFormed(acc: seq<Cond>, ts: seq<Token>)
    requires AllLexed(ts) && acc != [] && forall i | 0 <= i < |acc| :: WellFormed(acc[i])
    requires |acc| >= 2 || Head(ts) == Bare("and")
    ensures GoodResult(AndMore(acc, ts))
    decreases |ts|, 1
  {
    hide ParseNot;
    hide Lexed;
    if Head(ts) == Bare("and") {
      NotWellFormed(Rest(ts));
      match ParseNot(Rest(ts))
      case Err(_) =>
      case Ok((rhs, rest)) => AndMoreWellFormed(acc + [rhs], rest);
    }
  }

  lemma {:induction false} OrWellFormed(ts: seq<Token>)
    requires AllLexed(ts)
    ensures GoodResult(ParseOr(ts))
    decreases |ts|, 4
  {
    hide ParseAnd;
    hide Lexed;
    AndWellFormed(ts);
    match ParseAnd(ts)
    case Err(_) =>
    case Ok((lhs, rest)) =>
      if Head(rest) == Bare("or") {
        OrMoreWellFormed([lhs], rest);
      }
  }

  lemma {:induction false} OrMoreWellFormed(acc: seq<Cond>, ts: seq<Token>)
    requires AllLexed(ts) && acc != [] && forall i | 0 <= i < |acc| :: WellFormed(acc[i])
    requires |acc| >= 2 || Head(ts) == Bare("or")
    ensures GoodResult(OrMore(acc, ts))
    decreases |ts|, 3
  {
    hide ParseAnd;
    hide Lexed;
    if Head(ts) == Bare("or") {
      AndWellFormed(Rest(ts));
      match ParseAnd(Rest(ts))
      case Err(_) =>
      case Ok((rhs, rest)) => OrMoreWellFormed(acc + [rhs], rest);
    }
  }

  /** Whatever the text, a returned tree is well-formed. */
  lemma ParsedIsWellFormed(text: string)
    ensures Parse(text).Ok? ==> WellFormed(Parse(text).value)
  {
    hide ParseOr;
    hide Lexed;
    LexLexed(text);
    OrWellFormed(Lex(text));
  }

  /** A tree is the parse of some text exactly when it is well-formed. */
  lemma ImageIsWellFormed(c: Cond)
    ensures WellFormed(c) <==> exists text :: Parse(text) == Ok(c)
  {
    hide Parse;
    if WellFormed(c) {
      ParseUndoesPrint(c);
    }
    forall text | Parse(text) == Ok(c)
      ensures WellFormed(c)
    {
      ParsedIsWellFormed(text);
    }
  }

  // ----- single characters -----

  /** `=` is always an operator: no bare token of any text contains it. */
  lemma EqualsNeverBare(text: string, i: nat)
    requires i < |Lex(text)| && Lex(text)[i].Bare?
    ensures '=' !in Lex(text)[i].text
  {
    hide Lex;
    LexLexed(text);
    assert Lexed(Lex(text)[i]);
  }

  lemma OneCharacterToken(c: char)
    requires !IsSpace(c)
    ensures TokenAt([c]).1 == 1 && [c][1..] == []
    ensures TokenAt([c]).0 ==
      match c
      case '(' => LParen
      case ')' => RParen
      case ',' => Comma
      case '=' => EqSign
      case _ => Bare([c])
  {
    assert [c][..1] == [c] && [c][1..] == [];
    assert IsBareChar(c) ==> WordLength([c]) == 1;
  }

  lemma OneCharacterLexed(c: char)
    ensures Lex([c]) == if IsSpace(c) then [] else [TokenAt([c]).0]
  {
    assert [c][1..] == [];
    assert SkipSpaces([]) == [] && Lex([]) == [];
    if !IsSpace(c) {
      OneCharacterToken(c);
      assert SkipSpaces([c]) == [c];
    }
  }

  /** No field path and no keyword is a single character, and a digit does not overflow. */
  lemma OneCharacterWord(c: char, forceLiteral: bool)
    ensures !IsKeyword([c])
    ensures WordOperand([c], forceLiteral) == Ok(if IsDigit(c) then Num([c], DigitValue(c)) else Str([c]))
  {
    var s := [c];
    assert |s| == 1;
    assert !LooksLikeField(s);
    NotAField(s);
    hide FieldIdFromPath;
    assert IsDigit(c) ==> s[..0] == [] && DecimalValue(s) == DigitValue(c);
    assert IsNumberText(s) <==> IsDigit(s[0]);
  }

  /** The lexer's comments leave illegal characters to the parser to reject. It rejects the quote
      alone: a single character is an operand if and only if it is no blank, separator, `=` or
      quote; a digit is a number, anything else a string of that one character. */
  lemma CharacterAcceptedIff(c: char, forceLiteral: bool)
    ensures ParseOperand(Lex([c]), forceLiteral).Ok? <==> !IsSpace(c) && c !in "(),=\""
    ensures ParseOperand(Lex([c]), forceLiteral).Ok? ==>
              ParseOperand(Lex([c]), forceLiteral) == Ok((if IsDigit(c) then Num([c], DigitValue(c)) else Str([c]), []))
    ensures c == '"' ==> ParseOperand(Lex([c]), forceLiteral) == Err(QuotedString)
  {
    hide Lex;
    hide WordOperand;
    hide IsKeyword;
    OneCharacterLexed(c);
    OneCharacterWord(c, forceLiteral);
    if !IsSpace(c) {
      OneCharacterToken(c);
      hide TokenAt;
      assert [c] == "\"" <==> c == '"' by {
        assert [c][0] == c && "\""[0] == '"';
      }
    }
  }

  /** Such a character stands on the right of any comparison that takes a string. */
  lemma StrayCharacterAccepted(c: char, op: CmpOp, id: FieldId)
    requires !IsSpace(c) && !IsBareChar(c) && c !in "(),=\""
    requires op != In && (op == Eq || op == Ne || !IsNumber(id))
    ensures Parse(Print(Compare(op, Field(id), Str([c])))) == Ok(Compare(op, Field(id), Str([c])))
  {
    hide PathOf;
    hide Parse;
    hide Print;
    var s := [c];
    assert |s| == 1 && s[0] == c;
    assert IsWord(s) && !IsKeyword(s) && !IsNumberText(s) && !LooksLikeField(s);
    ParseUndoesPrint(Compare(op, Field(id), Str(s)));
  }
}
