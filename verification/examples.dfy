/**
 Calls of `getNextToken` on small inputs, worked out from the definitions:
 a trailing space before the end, a number glued to a keyword, keywords
 inside longer words, two-character operators, a skipped comment and the
 three ways a syntax error arises.

 Each input is a parameter fixed by `requires s == "..."` rather than a
 literal in the statement: a literal makes the verifier unfold the whole
 rule table eagerly, while a parameter keeps each proof small.
 */
module Examples {
  import opened Wrappers
  import opened Chars
  import opened Patterns
  import opened Rules
  import opened Reference
  import opened Lexer

  /** A call at a cursor where the reference lexer reads the word `w` as a
      token of kind `k`: the call emits `w` and moves past it. */
  lemma EmitsAt(t: Tokenizer, k: Kind, w: string)
    requires t.HasMoreTokens() && DiscardLength(t.text[t.cursor..]) == 0
    requires Classify(t.text[t.cursor..]) == Some(Lexeme(Some(k), |w|))
    requires t.cursor + |w| <= |t.text| && t.text[t.cursor..t.cursor + |w|] == w
    ensures GetNextToken(t) == Step(Tokenizer(t.text, t.cursor + |w|), Emit(Token(k, w)))
  {
    var m := Classify(t.text[t.cursor..]);
    GetNextTokenReads(t);
    ReadAtEmits(t, k, w);
    assert GetNextToken(t) == ReadAt(t, m);
  }

  /** A call at a cursor where the reference lexer reads nothing. */
  lemma ReadsNothing(t: Tokenizer)
    requires t.HasMoreTokens() && DiscardLength(t.text[t.cursor..]) == 0
    requires Classify(t.text[t.cursor..]).None?
    ensures GetNextToken(t) == Step(t, SyntaxError(t.text[t.cursor]))
  {
    GetNextTokenReads(t);
  }

  /** The reference lexer reads the number `42` at the start of `42 `. */
  lemma ClassifyFortyTwo(s: string)
    requires s == "42 "
    ensures DiscardLength(s) == 0 && Classify(s) == Some(Lexeme(Some(Number), 2))
  {
    RunUnique(s, IsWordChar, 2);
    RunUnique(s, IsDigit, 2);
    assert s[..2] == "42" && "42" !in KeywordWords;
  }

  /** `42 `: first the number `42`, ... */
  lemma NumberFirst(s: string)
    requires s == "42 "
    ensures GetNextToken(Init(s)) == Step(Tokenizer(s, 2), Emit(Token(Number, "42")))
  {
    ClassifyFortyTwo(s);
    assert s[0..2] == "42";
    EmitsAt(Init(s), Number, "42");
  }

  /** ... then `null` once the trailing space is skipped. */
  lemma ThenEnd(s: string)
    requires s == "42 "
    ensures GetNextToken(Tokenizer(s, 2)) == Step(Tokenizer(s, 3), Null)
  {
    assert DiscardLength(s[2..]) == 1;
    GetNextTokenSkips(Tokenizer(s, 2), 1);
    GetNextTokenAtEnd(Tokenizer(s, 3));
  }

  // ---------------------------------------------------------------------
  // Keywords only as whole words

  /** In `1let` the word run `1let` is no keyword, so the digit run `1` is a number. */
  lemma ClassifyOneLet(s: string)
    requires s == "1let"
    ensures DiscardLength(s) == 0 && Classify(s) == Some(Lexeme(Some(Number), 1))
  {
    RunUnique(s, IsWordChar, 4);
    RunUnique(s, IsDigit, 1);
    assert s[..4] == "1let" && "1let" !in KeywordWords;
  }

  /** A word run that is exactly `let` is the keyword. */
  lemma ClassifyLet(s: string)
    requires s == "let"
    ensures DiscardLength(s) == 0 && Classify(s) == Some(Lexeme(Some(Keyword("let")), 3))
  {
    RunUnique(s, IsWordChar, 3);
    assert s[..3] == "let" && KeywordWords[0] == "let";
  }

  /** `1let`: the number `1`, ... */
  lemma NumberBeforeKeyword(s: string)
    requires s == "1let"
    ensures GetNextToken(Init(s)) == Step(Tokenizer(s, 1), Emit(Token(Number, "1")))
  {
    ClassifyOneLet(s);
    assert s[0..1] == "1";
    EmitsAt(Init(s), Number, "1");
  }

  /** ... then the keyword `let`. */
  lemma KeywordAfterNumber(s: string)
    requires s == "1let"
    ensures GetNextToken(Tokenizer(s, 1)) == Step(Tokenizer(s, 4), Emit(Token(Keyword("let"), "let")))
  {
    var rest := s[1..];
    assert rest == "let";
    ClassifyLet(rest);
    assert s[1..4] == "let";
    EmitsAt(Tokenizer(s, 1), Keyword("let"), "let");
  }

  /** In `letter` the whole word run is an identifier. */
  lemma ClassifyLetter(s: string)
    requires s == "letter"
    ensures DiscardLength(s) == 0 && Classify(s) == Some(Lexeme(Some(Identifier), 6))
  {
    RunUnique(s, IsWordChar, 6);
    assert s[..6] == "letter" && "letter" !in KeywordWords;
  }

  /** `letter` is one identifier, not `let` followed by `ter`. */
  lemma LetterIsIdentifier(s: string)
    requires s == "letter"
    ensures GetNextToken(Init(s)) == Step(Tokenizer(s, 6), Emit(Token(Identifier, "letter")))
  {
    ClassifyLetter(s);
    assert s[0..6] == s;
    EmitsAt(Init(s), Identifier, s);
  }

  /** In `let1` the whole word run is an identifier. */
  lemma ClassifyLetOne(s: string)
    requires s == "let1"
    ensures DiscardLength(s) == 0 && Classify(s) == Some(Lexeme(Some(Identifier), 4))
  {
    RunUnique(s, IsWordChar, 4);
    assert s[..4] == "let1" && "let1" !in KeywordWords;
  }

  /** `let1` is one identifier. */
  lemma LetOneIsIdentifier(s: string)
    requires s == "let1"
    ensures GetNextToken(Init(s)) == Step(Tokenizer(s, 4), Emit(Token(Identifier, "let1")))
  {
    ClassifyLetOne(s);
    assert s[0..4] == s;
    EmitsAt(Init(s), Identifier, s);
  }

  // ---------------------------------------------------------------------
  // Two-character operators

  /** `!=` is read whole as an equality operator. */
  lemma ClassifyNotEqual(s: string)
    requires s == "!="
    ensures DiscardLength(s) == 0 && Classify(s) == Some(Lexeme(Some(EqualityOperator), 2))
  {
    assert s[0] == '!' && EqualsNext(s);
  }

  /** `!=` is one equality operator, not `!` then `=`. */
  lemma NotEqualIsOneToken(s: string)
    requires s == "!="
    ensures GetNextToken(Init(s)) == Step(Tokenizer(s, 2), Emit(Token(EqualityOperator, "!=")))
  {
    ClassifyNotEqual(s);
    assert s[0..2] == s;
    EmitsAt(Init(s), EqualityOperator, s);
  }

  /** `>=` is read whole as a relational operator. */
  lemma ClassifyAtLeast(s: string)
    requires s == ">="
    ensures DiscardLength(s) == 0 && Classify(s) == Some(Lexeme(Some(RelationalOperator), 2))
  {
    assert s[0] == '>' && EqualsNext(s);
  }

  /** `>=` is one relational operator. */
  lemma AtLeastIsOneToken(s: string)
    requires s == ">="
    ensures GetNextToken(Init(s)) == Step(Tokenizer(s, 2), Emit(Token(RelationalOperator, ">=")))
  {
    ClassifyAtLeast(s);
    assert s[0..2] == s;
    EmitsAt(Init(s), RelationalOperator, s);
  }

  // ---------------------------------------------------------------------
  // Comments are skipped

  // The comment `/* a */` is discarded whole: it ends at its own `*/`.
  lemma CommentLength(s: string)
    requires s == "/* a */ 5"
    ensures DiscardLength(s) == 7
  {
    assert FindClose(s, 5) == Some(5);
    assert FindClose(s, 4) == Some(5);
    assert FindClose(s, 3) == Some(5);
    assert FindClose(s, 2) == Some(5);
  }

  /** The `5` after the comment is a number. */
  lemma ClassifyFive(s: string)
    requires s == "5"
    ensures DiscardLength(s) == 0 && Classify(s) == Some(Lexeme(Some(Number), 1))
  {
    RunUnique(s, IsWordChar, 1);
    RunUnique(s, IsDigit, 1);
    assert s[..1] == "5" && "5" !in KeywordWords;
  }

  /** In `/* a */ 5` the call skips the comment, ... */
  lemma SkipsComment(s: string)
    requires s == "/* a */ 5"
    ensures GetNextToken(Init(s)) == GetNextToken(Tokenizer(s, 7))
  {
    CommentLength(s);
    GetNextTokenSkips(Init(s), 7);
  }

  /** ... then the space, ... */
  lemma SkipsSpace(s: string)
    requires s == "/* a */ 5"
    ensures GetNextToken(Tokenizer(s, 7)) == GetNextToken(Tokenizer(s, 8))
  {
    var space := s[7..];
    assert space == " 5" && DiscardLength(space) == 1;
    GetNextTokenSkips(Tokenizer(s, 7), 1);
  }

  /** ... and reads the number `5`. */
  lemma ReadsFive(s: string)
    requires s == "/* a */ 5"
    ensures GetNextToken(Tokenizer(s, 8)) == Step(Tokenizer(s, 9), Emit(Token(Number, "5")))
  {
    var five := s[8..];
    assert five == "5";
    ClassifyFive(five);
    assert s[8..9] == "5";
    EmitsAt(Tokenizer(s, 8), Number, "5");
  }

  // `/* a */ 5`: one call skips the comment and the space and reads `5`.
  lemma CommentSkipped(s: string)
    requires s == "/* a */ 5"
    ensures GetNextToken(Init(s)) == Step(Tokenizer(s, 9), Emit(Token(Number, "5")))
  {
    SkipsComment(s);
    SkipsSpace(s);
    ReadsFive(s);
  }

  // ---------------------------------------------------------------------
  // Syntax errors

  /** `@` starts no lexeme. */
  lemma AtSignIsError(s: string)
    requires s == "@"
    ensures GetNextToken(Init(s)) == Step(Init(s), SyntaxError('@'))
  {
    assert DiscardLength(s) == 0 && Classify(s).None?;
    ReadsNothing(Init(s));
  }

  /** A lone `&` is no operator: only `&&` is. */
  lemma LoneAmpersandIsError(s: string)
    requires s == "&"
    ensures GetNextToken(Init(s)) == Step(Init(s), SyntaxError('&'))
  {
    assert DiscardLength(s) == 0 && Classify(s).None?;
    ReadsNothing(Init(s));
  }

  /** A lone `|` is no operator: only `||` is. */
  lemma LoneBarIsError(s: string)
    requires s == "|"
    ensures GetNextToken(Init(s)) == Step(Init(s), SyntaxError('|'))
  {
    assert DiscardLength(s) == 0 && Classify(s).None?;
    ReadsNothing(Init(s));
  }

  /** `"abc` never closes, so no string is read and the quote is reported. */
  lemma UnclosedStringIsError(s: string)
    requires s == "\"abc"
    ensures GetNextToken(Init(s)) == Step(Init(s), SyntaxError('"'))
  {
    RunUnique(s[1..], c => c != '"', 3);
    assert DiscardLength(s) == 0 && Classify(s).None?;
    ReadsNothing(Init(s));
  }
}
