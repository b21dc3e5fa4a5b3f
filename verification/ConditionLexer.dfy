/** The lexer of src/detect/condition_parser.cpp: the token stream as a function of the text,
    and the lexer object that produces it token by token. Character classes are those of the
    "C" locale; every byte of the text is one character. */
module ConditionLexer {
  import opened Decimal

  datatype Token =
    | End
    | LParen
    | RParen
    | Comma
    | EqSign
    | NeSign
    | EmptyQuote          // the only quoted form: ""
    | Bare(text: string)

  predicate IsSpace(c: char) {
    c == ' ' || '\t' <= c <= '\r'
  }

  predicate IsAlnum(c: char) {
    IsDigit(c) || 'A' <= c <= 'Z' || 'a' <= c <= 'z'
  }

  predicate IsBareChar(c: char) {
    || IsAlnum(c)
    || c == '/' || c == '.' || c == '_' || c == '-' || c == ':' || c == '*' || c == '+' || c == '@'
    || c == '[' || c == ']'
  }

  function SkipSpaces(s: string): (r: string)
    ensures |r| <= |s|
    ensures r != [] ==> !IsSpace(r[0])
  {
    if s != [] && IsSpace(s[0]) then SkipSpaces(s[1..]) else s
  }

  /** Length of the longest prefix of bare characters. */
  function WordLength(s: string): (n: nat)
    ensures n <= |s|
  {
    if s != [] && IsBareChar(s[0]) then 1 + WordLength(s[1..]) else 0
  }

  /** The first token of a text that does not begin with a space, and its length. */
  function TokenAt(s: string): (r: (Token, nat))
    requires s != []
    ensures 0 < r.1 <= |s|
    ensures r.0 != End
  {
    match s[0]
    case '(' => (LParen, 1)
    case ')' => (RParen, 1)
    case ',' => (Comma, 1)
    case '=' => (EqSign, 1)
    case '!' => if |s| > 1 && s[1] == '=' then (NeSign, 2) else (Bare("!"), 1)
    case '"' => if |s| > 1 && s[1] == '"' then (EmptyQuote, 2) else (Bare("\""), 1)
    case c => if !IsBareChar(c) then (Bare([c]), 1) else (Bare(s[..WordLength(s)]), WordLength(s))
  }

  /** All tokens of a text, without the final end marker. */
  function Lex(s: string): (ts: seq<Token>)
    ensures End !in ts
    decreases |s|
  {
    var t := SkipSpaces(s);
    if t == [] then []
    else
      var (tok, n) := TokenAt(t);
      [tok] + Lex(t[n..])
  }

  class Lexer {
    const text: string
    var pos: nat

    ghost predicate Valid()
      reads this
    {
      pos <= |text|
    }

    /** The tokens not yet handed out. */
    ghost function Pending(): seq<Token>
      requires Valid()
      reads this
    {
      Lex(text[pos..])
    }

    constructor (text: string)
      ensures this.text == text && pos == 0 && Valid()
    {
      this.text := text;
      pos := 0;
    }

    method SkipBlanks()
      requires Valid()
      modifies this
      ensures Valid() && pos >= old(pos)
      ensures text[pos..] == SkipSpaces(text[old(pos)..])
    {
      while pos < |text| && IsSpace(text[pos])
        invariant old(pos) <= pos <= |text|
        invariant SkipSpaces(text[pos..]) == SkipSpaces(text[old(pos)..])
      {
        assert text[pos..][1..] == text[pos + 1..];
        pos := pos + 1;
      }
    }

    /** Consumes the longest run of bare characters. */
    method ScanWord() returns (word: string)
      requires Valid()
      modifies this
      ensures Valid() && pos == old(pos) + WordLength(text[old(pos)..])
      ensures word == text[old(pos)..pos]
    {
      var start := pos;
      while pos < |text| && IsBareChar(text[pos])
        invariant start <= pos <= |text|
        invariant WordLength(text[start..]) == (pos - start) + WordLength(text[pos..])
      {
        assert text[pos..][1..] == text[pos + 1..];
        pos := pos + 1;
      }
      word := text[start..pos];
    }

    /** Reads one token at a position that holds no space. */
    method Scan() returns (t: Token)
      requires Valid() && pos < |text|
      modifies this
      ensures Valid() && pos > old(pos)
      ensures (t, pos - old(pos)) == TokenAt(text[old(pos)..])
    {
      var c := text[pos];
      ghost var rest := text[pos..];
      assert rest[0] == c && (pos + 1 < |text| ==> rest[1] == text[pos + 1]);
      match c {
        case '(' => pos := pos + 1; t := LParen;
        case ')' => pos := pos + 1; t := RParen;
        case ',' => pos := pos + 1; t := Comma;
        case '=' => pos := pos + 1; t := EqSign;
        case '!' =>
          if pos + 1 < |text| && text[pos + 1] == '=' {
            pos := pos + 2;
            t := NeSign;
          } else {
            t := Bare("!");
            pos := pos + 1;
          }
        case '"' =>
          if pos + 1 < |text| && text[pos + 1] == '"' {
            pos := pos + 2;
            t := EmptyQuote;
          } else {
            t := Bare("\"");
            pos := pos + 1;
          }
        case _ =>
          if !IsBareChar(c) {
            t := Bare([c]);
            pos := pos + 1;
          } else {
            var word := ScanWord();
            t := Bare(word);
            assert rest[..pos - old(pos)] == text[old(pos)..pos];
          }
      }
    }

    /** Hands out the next token; at the end of the text it keeps answering `End`. */
    method Next() returns (t: Token)
      requires Valid()
      modifies this
      ensures Valid()
      ensures t == End ==> old(Pending()) == [] && Pending() == []
      ensures t != End ==> old(Pending()) == [t] + Pending()
      ensures t != End ==> pos > old(pos)
    {
      SkipBlanks();
      if pos >= |text| {
        return End;
      }
      ghost var start := pos;
      t := Scan();
      assert text[start..][pos - start..] == text[pos..];
    }
  }
}
