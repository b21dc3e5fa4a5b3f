/** The recursive-descent parser object of src/detect/condition_parser.cpp: one pending token,
    a lexer position and the first error, updated in place; proved against ConditionGrammar. */
module ConditionParser {
  import opened Decimal
  import opened Options
  import opened RuleAst
  import opened ConditionLexer
  import opened ConditionGrammar

  /** A parse step that returned `got` did what the grammar function `spec` says. On failure
      the first error recorded stays. */
  ghost predicate Agrees<T>(spec: Parsed<T>, got: Option<T>, rem: seq<Token>,
                            errBefore: Option<ParseError>, errAfter: Option<ParseError>)
  {
    match spec
    case Ok((value, rest)) => got == Some(value) && rem == rest && errAfter == errBefore
    case Err(e) => got == None && errAfter == (if errBefore.None? then Some(e) else errBefore)
  }

  class Parser {
    const lexer: Lexer
    var tok: Token
    var err: Option<ParseError>

    ghost predicate Valid()
      reads this, lexer
    {
      && lexer.Valid()
      && (tok == End ==> lexer.Pending() == [])
    }

    /** The pending token and everything after it. */
    ghost function Remaining(): seq<Token>
      requires Valid()
      reads this, lexer
    {
      if tok == End then [] else [tok] + lexer.Pending()
    }

    constructor (text: string)
      ensures Valid() && fresh(lexer) && err == None
      ensures Remaining() == Lex(text)
    {
      var l := new Lexer(text);
      lexer := l;
      err := None;
      tok := End;
      new;
      assert text[0..] == text;
      tok := lexer.Next();
    }

    method Advance()
      requires Valid()
      modifies this`tok, lexer
      ensures Valid() && Remaining() == Rest(old(Remaining()))
    {
      tok := lexer.Next();
    }

    method Fail(e: ParseError)
      modifies this`err
      ensures err == if old(err).None? then Some(e) else old(err)
    {
      if err.None? {
        err := Some(e);
      }
    }

    /** The pending token is the head of what remains. */
    lemma TokIsHead()
      requires Valid()
      ensures Head(Remaining()) == tok
    {
    }

    method ParseOperandHere(forceLiteral: bool) returns (out: Option<Operand>)
      requires Valid()
      modifies this, lexer
      ensures Valid()
      ensures Agrees(ParseOperand(old(Remaining()), forceLiteral), out, Remaining(), old(err), err)
    {
      TokIsHead();
      match tok {
        case EmptyQuote =>
          Advance();
          return Some(Str(""));
        case Bare(text) =>
          if IsKeyword(text) {
            Fail(KeywordOperand(text));
            return None;
          }
          if text == "\"" {
            Fail(QuotedString);
            return None;
          }
          Advance();
          if !forceLiteral {
            var id := FieldIdFromPath(text);
            if id.Some? {
              return Some(Field(id.value));
            }
            if LooksLikeField(text) {
              Fail(UnknownField(text));
              return None;
            }
          }
          if IsNumberText(text) {
            if DecimalValue(text) > MAX_INT64 {
              Fail(NumberOverflow(text));
              return None;
            }
            return Some(Num(text, DecimalValue(text)));
          }
          return Some(Str(text));
        case other =>
          Fail(OperandExpected(other));
          return None;
      }
    }

    method ParseListHere(forceLiteral: bool) returns (out: Option<Operand>)
      requires Valid()
      modifies this, lexer
      ensures Valid()
      ensures Agrees(ParseList(old(Remaining()), forceLiteral), out, Remaining(), old(err), err)
    {
      Advance();
      TokIsHead();
      if tok == RParen {
        Fail(EmptyList);
        return None;
      }
      var items: seq<Operand> := [];
      while true
        invariant Valid() && err == old(err)
        invariant ParseList(old(Remaining()), forceLiteral) == ParseItems(items, Remaining(), forceLiteral)
        decreases |Remaining()|
      {
        var elem := ParseOperandHere(forceLiteral);
        if elem.None? {
          return None;
        }
        if elem.value.Field? {
          Fail(FieldInList);
          return None;
        }
        TokIsHead();
        items := items + [elem.value];
        if tok == Comma {
          Advance();
        } else if tok == RParen {
          Advance();
          return Some(List(items));
        } else {
          Fail(ListSeparatorExpected);
          return None;
        }
      }
    }

    method ParseComparisonHere() returns (node: Option<Cond>)
      requires Valid()
      modifies this, lexer
      ensures Valid()
      ensures Agrees(ParseComparison(old(Remaining())), node, Remaining(), old(err), err)
    {
      var lhs := ParseOperandHere(false);
      if lhs.None? {
        return None;
      }
      TokIsHead();
      var found := tok;
      var op := OperatorOf(found);
      if op.None? {
        Fail(OperatorExpected(found));
        return None;
      }
      Advance();
      TokIsHead();
      var forceLiteral := lhs.value == Field(EventType);
      var rhs: Option<Operand>;
      if tok == LParen {
        if op.value != In {
          Fail(ListOutsideIn);
          return None;
        }
        rhs := ParseListHere(forceLiteral);
      } else {
        if op.value == In {
          Fail(InNeedsList);
          return None;
        }
        rhs := ParseOperandHere(forceLiteral);
      }
      if rhs.None? {
        return None;
      }
      if SubstringOnNumber(op.value, lhs.value) {
        Fail(NumericSubstring);
        return None;
      }
      node := Some(Compare(op.value, lhs.value, rhs.value));
    }

    method ParseNotHere() returns (node: Option<Cond>)
      requires Valid()
      modifies this, lexer
      ensures Valid()
      ensures Agrees(ParseNot(old(Remaining())), node, Remaining(), old(err), err)
      decreases |Remaining()|, 0
    {
      TokIsHead();
      if tok == Bare("not") {
        Advance();
        var child := ParseNotHere();
        if child.None? {
          return None;
        }
        return Some(Not(child.value));
      }
      if tok == LParen {
        Advance();
        var inner := ParseOrHere();
        if inner.None? {
          return None;
        }
        TokIsHead();
        if tok != RParen {
          Fail(MissingRParen);
          return None;
        }
        Advance();
        return inner;
      }
      node := ParseComparisonHere();
    }

    method ParseAndHere() returns (node: Option<Cond>)
      requires Valid()
      modifies this, lexer
      ensures Valid()
      ensures Agrees(ParseAnd(old(Remaining())), node, Remaining(), old(err), err)
      decreases |Remaining()|, 1
    {
      var lhs := ParseNotHere();
      if lhs.None? {
        return None;
      }
      TokIsHead();
      if tok != Bare("and") {
        return lhs;
      }
      var children := [lhs.value];
      while tok == Bare("and")
        invariant Valid() && err == old(err)
        invariant |Remaining()| < |old(Remaining())|
        invariant ParseAnd(old(Remaining())) == AndMore(children, Remaining())
        decreases |Remaining()|
      {
        TokIsHead();
        Advance();
        var rhs := ParseNotHere();
        if rhs.None? {
          return None;
        }
        children := children + [rhs.value];
      }
      TokIsHead();
      node := Some(And(children));
    }

    method ParseOrHere() returns (node: Option<Cond>)
      requires Valid()
      modifies this, lexer
      ensures Valid()
      ensures Agrees(ParseOr(old(Remaining())), node, Remaining(), old(err), err)
      decreases |Remaining()|, 2
    {
      var lhs := ParseAndHere();
      if lhs.None? {
        return None;
      }
      TokIsHead();
      if tok != Bare("or") {
        return lhs;
      }
      var children := [lhs.value];
      while tok == Bare("or")
        invariant Valid() && err == old(err)
        invariant |Remaining()| < |old(Remaining())|
        invariant ParseOr(old(Remaining())) == OrMore(children, Remaining())
        decreases |Remaining()|
      {
        TokIsHead();
        Advance();
        var rhs := ParseAndHere();
        if rhs.None? {
          return None;
        }
        children := children + [rhs.value];
      }
      TokIsHead();
      node := Some(Or(children));
    }

    method ParseWhole() returns (node: Option<Cond>)
      requires Valid() && err == None
      modifies this, lexer
      ensures match ParseTokens(old(Remaining()))
        case Ok(c) => node == Some(c) && err == None
        case Err(e) => node == None && err == Some(e)
    {
      node := ParseOrHere();
      if node.None? {
        return None;
      }
      TokIsHead();
      if tok != End {
        Fail(TrailingInput(tok));
        return None;
      }
    }
  }

  /** The source's entry point. A tree and a reason never come together, and one of them
      always comes. */
  method ParseCondition(text: string) returns (node: Option<Cond>, err: Option<ParseError>)
    ensures node.Some? <==> err.None?
    ensures match Parse(text)
      case Ok(c) => node == Some(c)
      case Err(e) => err == Some(e)
  {
    if IsBlank(text) {
      return None, Some(EmptyCondition);
    }
    var p := new Parser(text);
    node := p.ParseWhole();
    err := if node.None? then p.err else None;
  }
}
