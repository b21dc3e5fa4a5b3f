/** What the words of a condition are made of, spelled out: the characters of a bare word, the
    blanks between tokens, the reserved words, the numbers, and the words taken for fields. */
module ConditionWords {
  import opened Options
  import opened RuleAst
  import opened Decimal
  import opened ConditionLexer
  import opened ConditionGrammar
  import opened ConditionPrinter
  import opened ConditionRoundTrip
  import opened ConditionSafety

  // ----- characters -----

  /** The characters listed for bare words. */
  predicate Listed(c: char) {
    '0' <= c <= '9' || 'A' <= c <= 'Z' || 'a' <= c <= 'z' || c in "/._-:*+@[]"
  }

  /** Space, tab, line feed, vertical tab, form feed and carriage return. */
  predicate Blank(c: char) {
    c == ' ' || 9 <= c as int <= 13
  }

  lemma ListedIff(c: char)
    ensures Listed(c) <==> IsBareChar(c)
  {
    var marks := "/._-:*+@[]";
    assert marks[0] == '/' && marks[1] == '.' && marks[2] == '_' && marks[3] == '-' && marks[4] == ':'
        && marks[5] == '*' && marks[6] == '+' && marks[7] == '@' && marks[8] == '[' && marks[9] == ']';
  }

  lemma BlankIff(c: char)
    ensures Blank(c) <==> IsSpace(c)
    ensures Blank(c) ==> !Listed(c)
  {
    ListedIff(c);
  }

  predicate AllListed(text: string) {
    forall c | c in text :: Listed(c)
  }

  lemma AllListedIff(text: string)
    ensures AllListed(text) <==> AllBare(text)
  {
    hide Listed;
    hide IsBareChar;
    forall i | 0 <= i < |text|
      ensures Listed(text[i]) <==> IsBareChar(text[i])
    {
      ListedIff(text[i]);
    }
    if AllBare(text) {
      forall c | c in text
        ensures Listed(c)
      {
        var i :| 0 <= i < |text| && text[i] == c;
      }
    }
  }

  // ----- words -----

  /** A run of listed characters ends where the next one is not listed. */
  lemma WordEnds(word: string, rest: string)
    requires word != "" && AllListed(word) && (rest == "" || !Listed(rest[0]))
    ensures Lex(word + rest) == [Bare(word)] + Lex(rest)
  {
    hide Listed;
    AllListedIff(word);
    if rest != "" {
      ListedIff(rest[0]);
    }
    WordLengthOf(word, rest);
    FirstIsWord(word + rest);
    assert IsBareChar(word[0]) && (word + rest)[0] == word[0];
    assert (word + rest)[..|word|] == word && (word + rest)[|word|..] == rest;
    hide TokenAt;
    hide WordLength;
    assert SkipSpaces(word + rest) == word + rest;
  }

  lemma FirstIsWord(s: string)
    requires s != "" && IsBareChar(s[0])
    ensures !IsSpace(s[0]) && TokenAt(s) == (Bare(s[..WordLength(s)]), WordLength(s))
  {
  }

  /** A text is lexed as one bare word, itself, if and only if it consists of listed characters,
      or is a single character that is no blank, bracket, comma or equals sign. */
  lemma WholeWordIff(text: string)
    ensures Lex(text) == [Bare(text)] <==>
              text != "" && (AllListed(text) || (|text| == 1 && !Blank(text[0]) && text[0] !in "(),="))
  {
    hide Lex;
    hide Listed;
    hide Blank;
    NothingToLex();
    assert text + "" == text;
    if text != "" && AllListed(text) {
      WordEnds(text, "");
    } else if |text| == 1 {
      assert text == [text[0]];
      SingleWordIff(text[0]);
    } else if Lex(text) == [Bare(text)] {
      LexLexed(text);
      assert Lexed(Lex(text)[0]);
      AllListedIff(text);
    }
  }

  lemma NothingToLex()
    ensures Lex("") == []
  {
  }

  lemma SingleWordIff(c: char)
    ensures Lex([c]) == [Bare([c])] <==> !Blank(c) && c !in "(),="
  {
    hide Lex;
    BlankIff(c);
    OneCharacterLexed(c);
    if !IsSpace(c) {
      OneCharacterToken(c);
    }
    hide TokenAt;
    var marks := "(),=";
    assert marks[0] == '(' && marks[1] == ')' && marks[2] == ',' && marks[3] == '=';
  }

  /** A bare word of more than one character holds only listed ones, in every text. */
  lemma LongWordsAreListed(text: string, i: nat)
    requires i < |Lex(text)| && Lex(text)[i].Bare? && |Lex(text)[i].text| > 1
    ensures AllListed(Lex(text)[i].text)
  {
    hide Lex;
    hide Listed;
    LexLexed(text);
    assert Lexed(Lex(text)[i]);
    AllListedIff(Lex(text)[i].text);
  }

  // ----- blanks -----

  /** A text has no token if and only if it is blank. */
  lemma {:induction false} NoTokensIff(text: string)
    ensures Lex(text) == [] <==> forall c | c in text :: Blank(c)
  {
    hide Blank;
    if text != "" {
      BlankIff(text[0]);
      if IsSpace(text[0]) {
        NoTokensIff(text[1..]);
        assert text == [text[0]] + text[1..];
        assert Lex(text) == Lex(text[1..]);
      }
    }
  }

  /** Blanks only separate: one more in front of anything changes no token. */
  lemma BlankInFront(c: char, rest: string)
    requires Blank(c)
    ensures Lex([c] + rest) == Lex(rest)
  {
    BlankIff(c);
    assert ([c] + rest)[1..] == rest;
  }

  /** A condition of spaces, tabs and line ends is empty; with another blank among them it lacks an
      operand instead; any other condition is what its tokens parse to. */
  lemma EmptyConditions(text: string)
    ensures (forall c | c in text :: c == ' ' || c == '\t' || c == '\r' || c == '\n') ==>
              Parse(text) == Err(EmptyCondition)
    ensures !(forall c | c in text :: c == ' ' || c == '\t' || c == '\r' || c == '\n') ==>
              Parse(text) == ParseTokens(Lex(text))
    ensures (exists c :: c in text && !(c == ' ' || c == '\t' || c == '\r' || c == '\n'))
              ==> (forall c | c in text :: Blank(c)) ==> Parse(text) == Err(OperandExpected(End))
  {
    hide Lex;
    hide ParseTokens;
    NoTokensIff(text);
    NoOperand();
    assert forall i | 0 <= i < |text| :: text[i] in text;
    if IsBlank(text) {
      forall c | c in text
        ensures c == ' ' || c == '\t' || c == '\r' || c == '\n'
      {
        var i :| 0 <= i < |text| && text[i] == c;
      }
    }
  }

  lemma NoOperand()
    ensures ParseTokens([]) == Err(OperandExpected(End))
  {
    assert ParseNot([]) == Err(OperandExpected(End));
    assert ParseAnd([]) == Err(OperandExpected(End));
    assert ParseOr([]) == Err(OperandExpected(End));
  }

  // ----- what a word means -----

  /** A word is refused as an operand because it is reserved if and only if it is one of six. */
  lemma ReservedIff(word: string, forceLiteral: bool)
    ensures ParseOperand([Bare(word)], forceLiteral) == Err(KeywordOperand(word)) <==>
              word in ["and", "or", "not", "in", "contains", "startswith"]
  {
    hide WordOperand;
    NeverReserved(word, forceLiteral);
  }

  lemma NeverReserved(word: string, forceLiteral: bool)
    ensures WordOperand(word, forceLiteral).Err? ==> !WordOperand(word, forceLiteral).error.KeywordOperand?
  {
    hide FieldIdFromPath;
  }

  /** The families of fields. */
  const FAMILIES := ["process", "container", "file", "network", "dns", "priv", "ns"]

  /** A word is refused as an unknown field if and only if it continues a family's name with a dot
      and is the path of no field. */
  lemma UnknownFieldIff(word: string)
    ensures ParseOperand([Bare(word)], false) == Err(UnknownField(word)) <==>
              && FieldIdFromPath(word).None?
              && exists family, rest :: family in FAMILIES && word == family + "." + rest
  {
    PathRoundTrip(EventType);
    hide FieldIdFromPath;
    FamilyIff(word);
    if LooksLikeField(word) {
      FieldLikeNotKeyword(word);
    }
  }

  lemma FamilyIff(word: string)
    ensures LooksLikeField(word) <==>
              word == "event_type" || exists family, rest :: family in FAMILIES && word == family + "." + rest
  {
    BelongsIff("process", word);
    BelongsIff("container", word);
    BelongsIff("file", word);
    BelongsIff("network", word);
    BelongsIff("dns", word);
    BelongsIff("priv", word);
    BelongsIff("ns", word);
    DottedFamilies();
  }

  lemma DottedFamilies()
    ensures "process" + "." == "process." && "container" + "." == "container." && "file" + "." == "file."
    ensures "network" + "." == "network." && "dns" + "." == "dns." && "priv" + "." == "priv." && "ns" + "." == "ns."
  {
  }

  lemma BelongsIff(family: string, word: string)
    ensures family + "." <= word <==> exists rest: string :: word == family + "." + rest
  {
    if family + "." <= word {
      assert word == family + "." + word[|family + "."|..];
    }
  }

  // ----- numbers -----

  /** The decimal spelling of a number is read as that number, up to the largest 64-bit one. */
  lemma NumberIsRead(n: nat, forceLiteral: bool)
    ensures ParseOperand([Bare(Digits(n))], forceLiteral)
         == if n <= 9_223_372_036_854_775_807 then Ok((Num(Digits(n), n), [])) else Err(NumberOverflow(Digits(n)))
  {
    hide FieldIdFromPath;
    hide Digits;
    hide DecimalValue;
    DigitsDenote(n);
    NotAField(Digits(n));
    NumberIsWord(Digits(n));
  }

  lemma NumberTextIff(word: string)
    ensures IsNumberText(word) <==> word != "" && forall c | c in word :: '0' <= c <= '9'
  {
    assert forall i | 0 <= i < |word| :: word[i] in word;
    if IsNumberText(word) {
      forall c | c in word
        ensures '0' <= c <= '9'
      {
        var i :| 0 <= i < |word| && word[i] == c;
      }
    }
  }

  /** A word is read as a number, or as one too large, if and only if it is a run of digits. */
  lemma NumberIff(word: string)
    requires !LooksLikeField(word)
    ensures WordOperand(word, false).Err? || WordOperand(word, false).value.Num? <==>
              word != "" && forall c | c in word :: '0' <= c <= '9'
  {
    NotAField(word);
    hide FieldIdFromPath;
    hide DecimalValue;
    NumberTextIff(word);
  }

  // ----- a whole comparison -----

  /** A word that is no reserved word, no number and not shaped like a field. */
  ghost predicate PlainWord(word: string) {
    && word != "" && AllListed(word)
    && word !in ["and", "or", "not", "in", "contains", "startswith"]
    && (exists c :: c in word && !('0' <= c <= '9'))
    && word != "event_type" && !exists family, rest :: family in FAMILIES && word == family + "." + rest
  }

  lemma PlainWordIsWord(word: string)
    requires PlainWord(word)
    ensures IsWord(word) && !IsKeyword(word) && !IsNumberText(word) && !LooksLikeField(word)
  {
    hide Listed;
    hide LooksLikeField;
    AllListedIff(word);
    FamilyIff(word);
    NumberTextIff(word);
  }

  /** A field's path, the equals sign and a plain word, with single spaces between them, are parsed
      as the comparison of that field with that text. */
  lemma EqualsWord(path: string, id: FieldId, word: string)
    requires FieldIdFromPath(path) == Some(id) && PlainWord(word)
    ensures Parse(path + " = " + word) == Ok(Compare(Eq, Field(id), Str(word)))
  {
    hide *;
    PlainWordIsWord(word);
    FieldPath(path, id);
    EqualsTokens(path, word);
    PathNotBlank(path, " = " + word);
    assert path + (" = " + word) == path + " = " + word;
    TokensOfEquals(path, id, word);
    NotBlankParses(path + " = " + word);
  }

  lemma NotBlankParses(text: string)
    requires !IsBlank(text)
    ensures Parse(text) == ParseTokens(Lex(text))
  {
    hide ParseTokens;
    hide Lex;
  }

  lemma FieldPath(path: string, id: FieldId)
    requires FieldIdFromPath(path) == Some(id)
    ensures path == PathOf(id) && path != "" && AllBare(path) && IsWord(path)
  {
    hide PathOf;
    hide LooksLikeField;
    PathShape(id);
  }

  lemma EqualsTokens(path: string, word: string)
    requires IsWord(path) && PlainWord(word)
    ensures Lex(path + " = " + word) == [Bare(path), EqSign, Bare(word)]
  {
    hide Lex;
    hide PlainWord;
    hide IsWord;
    var text := path + " = " + word;
    assert text == Spell(Bare(path)) + " " + (Spell(EqSign) + " " + word);
    TokenBack(Bare(path), Spell(EqSign) + " " + word);
    TokenBack(EqSign, word);
    LastWord(word);
  }

  lemma LastWord(word: string)
    requires PlainWord(word)
    ensures Lex(word) == [Bare(word)]
  {
    hide Lex;
    WholeWordIff(word);
  }

  lemma PathNotBlank(path: string, rest: string)
    requires path != "" && AllBare(path)
    ensures !IsBlank(path + rest)
  {
    assert (path + rest)[0] == path[0] && IsBareChar(path[0]);
  }

  lemma TokensOfEquals(path: string, id: FieldId, word: string)
    requires FieldIdFromPath(path) == Some(id) && path == PathOf(id)
    requires IsWord(word) && !IsKeyword(word) && !IsNumberText(word) && !LooksLikeField(word)
    ensures ParseTokens([Bare(path), EqSign, Bare(word)]) == Ok(Compare(Eq, Field(id), Str(word)))
  {
    hide PathOf;
    hide FieldIdFromPath;
    var c := Compare(Eq, Field(id), Str(word));
    var ts := [Bare(path), EqSign, Bare(word)];
    assert ts == OperandTokens(Field(id)) + [OperatorToken(Eq)] + OperandTokens(Str(word));
    assert ts == CondTokens(c, OrLevel);
    assert WellFormed(c);
    CondBack(c, OrLevel, []);
    assert ts + [] == ts;
  }

  /** The path of a file, as rules write it. */
  lemma FilePathIs(word: string)
    requires PlainWord(word)
    ensures Parse("file.path = " + word) == Ok(Compare(Eq, Field(FilePath), Str(word)))
  {
    hide Parse;
    hide FieldIdFromPath;
    PathRoundTrip(FilePath);
    EqualsWord("file.path", FilePath, word);
    assert "file.path" + " = " + word == "file.path = " + word;
  }

  /** `contains` and `startswith` can be asked of a field, with a plain word, in some text that the
      parser takes, if and only if the field is no number. */
  lemma SubstringTestsIff(op: CmpOp, id: FieldId, word: string)
    requires (op == Contains || op == StartsWith) && PlainWord(word)
    ensures (exists text :: Parse(text) == Ok(Compare(op, Field(id), Str(word)))) <==> !IsNumber(id)
  {
    hide Parse;
    hide PlainWord;
    hide IsNumber;
    PlainWordIsWord(word);
    ImageIsWellFormed(Compare(op, Field(id), Str(word)));
  }
}
