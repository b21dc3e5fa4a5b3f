/** Well-formed condition trees, a canonical printer for them, and the proof that lexing undoes the
    writing out of tokens. */
module ConditionPrinter {
  import opened Decimal
  import opened RuleAst
  import opened ConditionLexer
  import opened ConditionGrammar

  // ----- well-formed trees -----

  predicate AllBare(s: string) {
    forall i | 0 <= i < |s| :: IsBareChar(s[i])
  }

  /** A text the lexer hands out as one bare token and the parser takes as an operand: a run of
      bare characters, or a single character that is no separator, operator or quote. */
  predicate IsWord(s: string) {
    && s != []
    && (AllBare(s) || (|s| == 1 && !IsSpace(s[0]) && s[0] !in "(),=\""))
  }

  predicate WellFormedLiteral(op: Operand, forceLiteral: bool) {
    match op
    case Str(s) =>
      || s == ""
      || (IsWord(s) && !IsKeyword(s) && !IsNumberText(s) && (forceLiteral || !LooksLikeField(s)))
    case Num(text, n) => IsNumberText(text) && n == DecimalValue(text) <= MAX_INT64
    case _ => false
  }

  predicate WellFormedScalar(op: Operand, forceLiteral: bool) {
    if op.Field? then !forceLiteral else WellFormedLiteral(op, forceLiteral)
  }

  predicate WellFormedRhs(op: CmpOp, rhs: Operand, forceLiteral: bool) {
    if op == In then
      rhs.List? && rhs.list != [] && forall i | 0 <= i < |rhs.list| :: WellFormedLiteral(rhs.list[i], forceLiteral)
    else
      WellFormedScalar(rhs, forceLiteral)
  }

  /** And/or nodes have at least two children; lists occur exactly under `in`, are non-empty and
      hold only literals; no substring test on a numeric field. */
  predicate WellFormed(c: Cond) {
    match c
    case Or(children) => |children| >= 2 && forall i | 0 <= i < |children| :: WellFormed(children[i])
    case And(children) => |children| >= 2 && forall i | 0 <= i < |children| :: WellFormed(children[i])
    case Not(child) => WellFormed(child)
    case Compare(op, lhs, rhs) =>
      && WellFormedScalar(lhs, false)
      && WellFormedRhs(op, rhs, lhs == Field(EventType))
      && !SubstringOnNumber(op, lhs)
  }

  // ----- printing -----

  function OperandToken(op: Operand): Token {
    match op
    case Field(id) => Bare(PathOf(id))
    case Str(s) => if s == "" then EmptyQuote else Bare(s)
    case Num(text, _) => Bare(text)
    case List(_) => End
  }

  function ItemTokens(items: seq<Operand>): seq<Token> {
    if items == [] then [RParen]
    else if |items| == 1 then [OperandToken(items[0]), RParen]
    else [OperandToken(items[0]), Comma] + ItemTokens(items[1..])
  }

  function OperandTokens(op: Operand): seq<Token> {
    if op.List? then [LParen] + ItemTokens(op.list) else [OperandToken(op)]
  }

  function OperatorToken(op: CmpOp): Token {
    match op
    case Eq => EqSign
    case Ne => NeSign
    case In => Bare("in")
    case Contains => Bare("contains")
    case StartsWith => Bare("startswith")
  }

  datatype Level = OrLevel | AndLevel | NotLevel

  /** Tokens of a tree in a context that binds at least as tightly as `level`; parentheses only
      where the grammar needs them. */
  function CondTokens(c: Cond, level: Level): seq<Token>
    decreases c, 1
  {
    match c
    case Or(children) =>
      var inner := Joined(children, Bare("or"), AndLevel);
      if level == OrLevel then inner else [LParen] + inner + [RParen]
    case And(children) =>
      var inner := Joined(children, Bare("and"), NotLevel);
      if level != NotLevel then inner else [LParen] + inner + [RParen]
    case Not(child) => [Bare("not")] + CondTokens(child, NotLevel)
    case Compare(op, lhs, rhs) => OperandTokens(lhs) + [OperatorToken(op)] + OperandTokens(rhs)
  }

  function Joined(cs: seq<Cond>, sep: Token, level: Level): seq<Token>
    decreases cs, 0
  {
    if cs == [] then []
    else if |cs| == 1 then CondTokens(cs[0], level)
    else CondTokens(cs[0], level) + [sep] + Joined(cs[1..], sep, level)
  }

  function Spell(t: Token): string {
    match t
    case End => ""
    case LParen => "("
    case RParen => ")"
    case Comma => ","
    case EqSign => "="
    case NeSign => "!="
    case EmptyQuote => "\"\""
    case Bare(text) => text
  }

  /** Tokens as text, each followed by one space. */
  function Render(ts: seq<Token>): string {
    if ts == [] then "" else Spell(ts[0]) + " " + Render(ts[1..])
  }

  function Print(c: Cond): string {
    Render(CondTokens(c, OrLevel))
  }

  // ----- lexing undoes rendering -----

  predicate Spellable(t: Token) {
    t != End && (t.Bare? ==> IsWord(t.text))
  }

  predicate AllSpellable(ts: seq<Token>) {
    forall i | 0 <= i < |ts| :: Spellable(ts[i])
  }

  lemma {:induction false} WordLengthOf(w: string, rest: string)
    requires AllBare(w) && (rest == [] || !IsBareChar(rest[0]))
    ensures WordLength(w + rest) == |w|
  {
    if w == [] {
      assert w + rest == rest;
    } else {
      assert (w + rest)[1..] == w[1..] + rest;
      WordLengthOf(w[1..], rest);
    }
  }

  /** A spelled token followed by a space scans back as itself. */
  lemma TokenScans(t: Token, rest: string)
    requires Spellable(t)
    ensures TokenAt(Spell(t) + (" " + rest)) == (t, |Spell(t)|)
    ensures !IsSpace(Spell(t)[0])
  {
    var s := Spell(t) + (" " + rest);
    assert s[0] == Spell(t)[0];
    if t.Bare? && AllBare(t.text) {
      WordLengthOf(t.text, " " + rest);
      assert s[..|t.text|] == t.text;
    } else if t.Bare? {
      var c := t.text[0];
      assert t.text == [c] && s[1] == ' ';
      assert !IsBareChar(c);
      assert c != '(' && c != ')' && c != ',' && c != '=' && c != '"' by {
        assert "(),=\""[0] == '(' && "(),=\""[1] == ')' && "(),=\""[2] == ',' && "(),=\""[3] == '='
            && "(),=\""[4] == '"';
      }
    }
  }

  lemma TokenBack(t: Token, rest: string)
    requires Spellable(t)
    ensures Lex(Spell(t) + " " + rest) == [t] + Lex(rest)
  {
    hide TokenAt;
    hide Spellable;
    TokenScans(t, rest);
    var s := Spell(t) + " " + rest;
    assert s == Spell(t) + (" " + rest);
    assert SkipSpaces(s) == s;
    var tail := s[|Spell(t)|..];
    assert tail == " " + rest;
    assert tail[1..] == rest;
    assert SkipSpaces(tail) == SkipSpaces(rest);
  }

  lemma {:induction false} LexUndoesRender(ts: seq<Token>)
    requires AllSpellable(ts)
    ensures Lex(Render(ts)) == ts
  {
    if ts != [] {
      LexUndoesRender(ts[1..]);
      TokenBack(ts[0], Render(ts[1..]));
    }
  }
}
