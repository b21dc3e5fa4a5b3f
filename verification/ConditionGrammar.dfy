/** The grammar that src/detect/condition_parser.cpp parses, as functions on token lists. Every
    function mirrors one method of the source's parser; the result is the tree and the tokens
    left over, or the first failure reported. */
module ConditionGrammar {
  import opened Decimal
  import opened Options
  import opened RuleAst
  import opened ConditionLexer

  datatype ParseError =
    | EmptyCondition
    | TrailingInput(found: Token)
    | MissingRParen
    | OperandExpected(found: Token)
    | KeywordOperand(word: string)
    | QuotedString
    | UnknownField(path: string)
    | NumberOverflow(text: string)
    | EmptyList
    | FieldInList
    | ListSeparatorExpected
    | OperatorExpected(found: Token)
    | ListOutsideIn
    | InNeedsList
    | NumericSubstring

  type Parsed<T> = Result<(T, seq<Token>), ParseError>

  const MAX_INT64 := 0x7FFF_FFFF_FFFF_FFFF

  predicate IsKeyword(s: string) {
    s == "and" || s == "or" || s == "not" || s == "in" || s == "contains" || s == "startswith"
  }

  /** The source's heuristic for reporting an unknown field. */
  predicate LooksLikeField(s: string) {
    || s == "event_type"
    || "process." <= s || "container." <= s || "file." <= s || "network." <= s
    || "dns." <= s || "priv." <= s || "ns." <= s
  }

  function Head(ts: seq<Token>): Token {
    if ts == [] then End else ts[0]
  }

  function Rest(ts: seq<Token>): (r: seq<Token>)
    ensures |r| <= |ts|
    ensures ts != [] ==> |r| < |ts|
  {
    if ts == [] then [] else ts[1..]
  }

  /** What a bare word means as an operand. */
  function WordOperand(word: string, forceLiteral: bool): Result<Operand, ParseError> {
    var field := FieldIdFromPath(word);
    if !forceLiteral && field.Some? then Ok(Field(field.value))
    else if !forceLiteral && LooksLikeField(word) then Err(UnknownField(word))
    else if IsNumberText(word) then
      if DecimalValue(word) > MAX_INT64 then Err(NumberOverflow(word)) else Ok(Num(word, DecimalValue(word)))
    else Ok(Str(word))
  }

  function ParseOperand(ts: seq<Token>, forceLiteral: bool): (r: Parsed<Operand>)
    ensures r.Ok? ==> |r.value.1| < |ts|
  {
    match Head(ts)
    case EmptyQuote => Ok((Str(""), Rest(ts)))
    case Bare(text) =>
      if IsKeyword(text) then Err(KeywordOperand(text))
      else if text == "\"" then Err(QuotedString)
      else
        (match WordOperand(text, forceLiteral)
         case Ok(op) => Ok((op, Rest(ts)))
         case Err(e) => Err(e))
    case other => Err(OperandExpected(other))
  }

  /** List elements after an opening parenthesis, up to and including the closing one. */
  function ParseItems(acc: seq<Operand>, ts: seq<Token>, forceLiteral: bool): (r: Parsed<Operand>)
    ensures r.Ok? ==> |r.value.1| < |ts|
    decreases |ts|
  {
    match ParseOperand(ts, forceLiteral)
    case Err(e) => Err(e)
    case Ok((elem, rest)) =>
      if elem.Field? then Err(FieldInList)
      else if Head(rest) == Comma then ParseItems(acc + [elem], Rest(rest), forceLiteral)
      else if Head(rest) == RParen then Ok((List(acc + [elem]), Rest(rest)))
      else Err(ListSeparatorExpected)
  }

  function ParseList(ts: seq<Token>, forceLiteral: bool): (r: Parsed<Operand>)
    ensures r.Ok? ==> |r.value.1| < |ts|
  {
    var inner := Rest(ts);
    if Head(inner) == RParen then Err(EmptyList) else ParseItems([], inner, forceLiteral)
  }

  function OperatorOf(t: Token): Option<CmpOp> {
    match t
    case EqSign => Some(Eq)
    case NeSign => Some(Ne)
    case Bare(text) =>
      if text == "in" then Some(In)
      else if text == "contains" then Some(Contains)
      else if text == "startswith" then Some(StartsWith)
      else None
    case _ => None
  }

  /** The right side of a comparison. */
  function ParseRhs(op: CmpOp, ts: seq<Token>, forceLiteral: bool): (r: Parsed<Operand>)
    ensures r.Ok? ==> |r.value.1| < |ts|
  {
    if Head(ts) == LParen then
      if op != In then Err(ListOutsideIn) else ParseList(ts, forceLiteral)
    else if op == In then Err(InNeedsList)
    else ParseOperand(ts, forceLiteral)
  }

  predicate SubstringOnNumber(op: CmpOp, lhs: Operand) {
    (op == Contains || op == StartsWith) && lhs.Field? && IsNumber(lhs.field)
  }

  function ParseComparison(ts: seq<Token>): (r: Parsed<Cond>)
    ensures r.Ok? ==> |r.value.1| < |ts|
  {
    match ParseOperand(ts, false)
    case Err(e) => Err(e)
    case Ok((lhs, afterLhs)) =>
      match OperatorOf(Head(afterLhs))
      case None => Err(OperatorExpected(Head(afterLhs)))
      case Some(op) =>
        match ParseRhs(op, Rest(afterLhs), lhs == Field(EventType))
        case Err(e) => Err(e)
        case Ok((rhs, rest)) =>
          if SubstringOnNumber(op, lhs) then Err(NumericSubstring)
          else Ok((Compare(op, lhs, rhs), rest))
  }

  function ParseNot(ts: seq<Token>): (r: Parsed<Cond>)
    ensures r.Ok? ==> |r.value.1| < |ts|
    decreases |ts|, 0
  {
    if Head(ts) == Bare("not") then
      match ParseNot(Rest(ts))
      case Err(e) => Err(e)
      case Ok((child, rest)) => Ok((Not(child), rest))
    else if Head(ts) == LParen then
      match ParseOr(Rest(ts))
      case Err(e) => Err(e)
      case Ok((inner, rest)) => if Head(rest) != RParen then Err(MissingRParen) else Ok((inner, Rest(rest)))
    else ParseComparison(ts)
  }

  function ParseAnd(ts: seq<Token>): (r: Parsed<Cond>)
    ensures r.Ok? ==> |r.value.1| < |ts|
    decreases |ts|, 2
  {
    match ParseNot(ts)
    case Err(e) => Err(e)
    case Ok((lhs, rest)) => if Head(rest) == Bare("and") then AndMore([lhs], rest) else Ok((lhs, rest))
  }

  function AndMore(acc: seq<Cond>, ts: seq<Token>): (r: Parsed<Cond>)
    ensures r.Ok? ==> |r.value.1| <= |ts|
    decreases |ts|, 1
  {
    if Head(ts) != Bare("and") then Ok((And(acc), ts))
    else
      match ParseNot(Rest(ts))
      case Err(e) => Err(e)
      case Ok((rhs, rest)) => AndMore(acc + [rhs], rest)
  }

  function ParseOr(ts: seq<Token>): (r: Parsed<Cond>)
    ensures r.Ok? ==> |r.value.1| < |ts|
    decreases |ts|, 4
  {
    match ParseAnd(ts)
    case Err(e) => Err(e)
    case Ok((lhs, rest)) => if Head(rest) == Bare("or") then OrMore([lhs], rest) else Ok((lhs, rest))
  }

  function OrMore(acc: seq<Cond>, ts: seq<Token>): (r: Parsed<Cond>)
    ensures r.Ok? ==> |r.value.1| <= |ts|
    decreases |ts|, 3
  {
    if Head(ts) != Bare("or") then Ok((Or(acc), ts))
    else
      match ParseAnd(Rest(ts))
      case Err(e) => Err(e)
      case Ok((rhs, rest)) => OrMore(acc + [rhs], rest)
  }

  /** The whole condition: one expression and nothing after it. */
  function ParseTokens(ts: seq<Token>): Result<Cond, ParseError> {
    match ParseOr(ts)
    case Err(e) => Err(e)
    case Ok((c, rest)) => if rest != [] then Err(TrailingInput(Head(rest))) else Ok(c)
  }

  predicate IsBlank(text: string) {
    forall i | 0 <= i < |text| :: text[i] in [' ', '\t', '\r', '\n']
  }

  /** `ParseCondition` of the source. */
  function Parse(text: string): Result<Cond, ParseError> {
    if IsBlank(text) then Err(EmptyCondition) else ParseTokens(Lex(text))
  }
}
