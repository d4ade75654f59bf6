/**
 Properties of the table's first-match scan on a single lexeme: which rule
 wins where several match, what each kind of lexeme looks like, and exactly
 when nothing matches. Each is proved of the reference lexer and carried
 over to the table by the agreement theorem.
 */
module Properties {
  import opened Wrappers
  import opened Chars
  import opened Patterns
  import opened Rules
  import opened Reference

  /** The table reads `m` wherever the reference lexer does. */
  lemma TableReads(s: string, m: Option<Lexeme>)
    requires Classify(s) == m
    ensures LexemeOf(Spec, s) == m
  {
    ClassifyAgrees(s);
  }

  // ---------------------------------------------------------------------
  // Operators: the first matching rule wins

  /** `==` and `!=` are one equality operator, never `=` or `!` followed by
      something else. */
  lemma EqualityWins(s: string)
    requires 2 <= |s| && (s[0] == '=' || s[0] == '!') && s[1] == '='
    ensures LexemeOf(Spec, s) == Some(Lexeme(Some(EqualityOperator), 2))
  {
    TableReads(s, Some(Lexeme(Some(EqualityOperator), 2)));
  }

  /** `+=`, `-=`, `*=` and `/=` are one compound assignment, never an
      arithmetic operator followed by `=`. */
  lemma CompoundAssignWins(s: string)
    requires 2 <= |s| && (s[0] == '+' || s[0] == '-' || s[0] == '*' || s[0] == '/') && s[1] == '='
    ensures LexemeOf(Spec, s) == Some(Lexeme(Some(ComplexAssign), 2))
  {
    TableReads(s, Some(Lexeme(Some(ComplexAssign), 2)));
  }

  /** `<`, `>`, `<=` and `>=` are each a single relational operator. */
  lemma RelationalIsOneToken(s: string)
    requires 1 <= |s| && (s[0] == '<' || s[0] == '>')
    ensures LexemeOf(Spec, s) == Some(Lexeme(Some(RelationalOperator), if 2 <= |s| && s[1] == '=' then 2 else 1))
  {
    TableReads(s, Some(Lexeme(Some(RelationalOperator), if 2 <= |s| && s[1] == '=' then 2 else 1)));
  }

  /** `&&` and `||` are the logical operators. */
  lemma LogicalPairs(s: string)
    requires 2 <= |s| && (s[0] == '&' || s[0] == '|') && s[1] == s[0]
    ensures LexemeOf(Spec, s) == Some(Lexeme(Some(if s[0] == '&' then LogicalAnd else LogicalOr), 2))
  {
    TableReads(s, Some(Lexeme(Some(if s[0] == '&' then LogicalAnd else LogicalOr), 2)));
  }

  /** Whether `s` starts with `=` after its first character. */
  predicate EqualsFollows(s: string) {
    2 <= |s| && s[1] == '='
  }

  /** Without a following `=`, `=` is an assignment, `!` a negation, `+`
      and `-` additive and `*` multiplicative; `/` is multiplicative too
      unless a comment starts there. */
  lemma SingleCharOperators(s: string)
    requires 1 <= |s| && !EqualsFollows(s)
    requires s[0] == '/' ==> !(2 <= |s| && (s[1] == '/' || s[1] == '*'))
    ensures s[0] == '=' ==> LexemeOf(Spec, s) == Some(Lexeme(Some(SimpleAssign), 1))
    ensures s[0] == '!' ==> LexemeOf(Spec, s) == Some(Lexeme(Some(LogicalNot), 1))
    ensures s[0] == '+' || s[0] == '-' ==> LexemeOf(Spec, s) == Some(Lexeme(Some(AdditiveOperator), 1))
    ensures s[0] == '*' || s[0] == '/' ==> LexemeOf(Spec, s) == Some(Lexeme(Some(MultiplicativeOperator), 1))
  {
    var m := Classify(s);
    if s[0] == '=' {
      assert m == Some(Lexeme(Some(SimpleAssign), 1));
    } else if s[0] == '!' {
      assert m == Some(Lexeme(Some(LogicalNot), 1));
    } else if s[0] == '+' || s[0] == '-' {
      assert m == Some(Lexeme(Some(AdditiveOperator), 1));
    } else if s[0] == '*' || s[0] == '/' {
      assert m == Some(Lexeme(Some(MultiplicativeOperator), 1));
    }
    TableReads(s, m);
  }

  // A block-comment opener that is never closed is not a comment: its
  // slash is read as a multiplicative operator.
  lemma UnclosedBlockComment(s: string)
    requires 2 <= |s| && s[0] == '/' && s[1] == '*'
    requires forall j :: 2 <= j < |s| - 1 ==> !(s[j] == '*' && s[j + 1] == '/')
    ensures LexemeOf(Spec, s) == Some(Lexeme(Some(MultiplicativeOperator), 1))
  {
    assert FindClose(s, 2).None?;
    TableReads(s, Some(Lexeme(Some(MultiplicativeOperator), 1)));
  }

  // ---------------------------------------------------------------------
  // Words: keywords, numbers, identifiers

  /** No operator is read as a word. */
  lemma OperatorsAreNotWords(s: string)
    requires 0 < |s|
    ensures OperatorLexeme(s).Some? ==>
              var k := OperatorLexeme(s).value.kind;
              k.Some? && !k.value.Keyword? && !k.value.Number? && !k.value.Identifier?
  {
  }

  /** A keyword is read only as a whole word: the lexeme is the reserved word
      itself, and no word character follows it. */
  lemma ClassifyKeywordShape(s: string, k: string, n: nat)
    requires Classify(s) == Some(Lexeme(Some(Keyword(k)), n))
    ensures k in KeywordWords
    ensures n == |k| <= |s| && s[..n] == k
    ensures n == |s| || !IsWordChar(s[n])
  {
  }

  /** A keyword the table reads is a whole reserved word. */
  lemma KeywordShape(s: string, k: string, n: nat)
    requires LexemeOf(Spec, s) == Some(Lexeme(Some(Keyword(k)), n))
    ensures k in KeywordWords
    ensures n == |k| <= |s| && s[..n] == k
    ensures n == |s| || !IsWordChar(s[n])
  {
    ClassifyAgrees(s);
    ClassifyKeywordShape(s, k, n);
  }

  /** A number is the whole run of digits at the start, whatever follows it. */
  lemma ClassifyNumberShape(s: string, n: nat)
    requires Classify(s) == Some(Lexeme(Some(Number), n))
    ensures 0 < n <= |s|
    ensures forall i :: 0 <= i < n ==> IsDigit(s[i])
    ensures n == |s| || !IsDigit(s[n])
  {
  }

  /** A number the table reads is the whole leading digit run. */
  lemma NumberShape(s: string, n: nat)
    requires LexemeOf(Spec, s) == Some(Lexeme(Some(Number), n))
    ensures 0 < n <= |s|
    ensures forall i :: 0 <= i < n ==> IsDigit(s[i])
    ensures n == |s| || !IsDigit(s[n])
  {
    ClassifyAgrees(s);
    ClassifyNumberShape(s, n);
  }

  /** An identifier is the whole run of word characters at the start, does
      not start with a digit and is not a reserved word. */
  lemma ClassifyIdentifierShape(s: string, n: nat)
    requires Classify(s) == Some(Lexeme(Some(Identifier), n))
    ensures 0 < n <= |s| && n == Run(s, IsWordChar)
    ensures !IsDigit(s[0])
    ensures s[..n] !in KeywordWords
  {
    assert 0 < |s| && DiscardLength(s) == 0;
    if s[0] in DelimiterChars {
      assert false;
    } else if !IsWordChar(s[0]) {
      if IsQuote(s[0]) {
        assert false;
      } else {
        assert Classify(s) == OperatorLexeme(s);
        OperatorsAreNotWords(s);
        assert false;
      }
    }
    var w := s[..Run(s, IsWordChar)];
    assert Classify(s) == Some(WordLexeme(s));
    assert w !in KeywordWords && !IsDigit(s[0]);
  }

  /** An identifier the table reads is the whole leading word run, and no keyword or number. */
  lemma IdentifierShape(s: string, n: nat)
    requires LexemeOf(Spec, s) == Some(Lexeme(Some(Identifier), n))
    ensures 0 < n <= |s| && n == Run(s, IsWordChar)
    ensures !IsDigit(s[0])
    ensures s[..n] !in KeywordWords
  {
    ClassifyAgrees(s);
    ClassifyIdentifierShape(s, n);
  }

  /** A word character starts a keyword exactly when the run of word
      characters there is a reserved word; otherwise a digit starts a number
      and any other word character an identifier. */
  lemma WordStart(s: string)
    requires 0 < |s| && IsWordChar(s[0])
    ensures var w := s[..Run(s, IsWordChar)];
            LexemeOf(Spec, s) ==
              if w in KeywordWords then Some(Lexeme(Some(Keyword(w)), |w|))
              else if IsDigit(s[0]) then Some(Lexeme(Some(Number), Run(s, IsDigit)))
              else Some(Lexeme(Some(Identifier), |w|))
  {
    assert DiscardLength(s) == 0 && s[0] !in DelimiterChars;
    assert Classify(s) == Some(WordLexeme(s));
    TableReads(s, Some(WordLexeme(s)));
  }

  // ---------------------------------------------------------------------
  // Strings

  /** A string keeps both quotes, ends with the quote it opened with and has
      no such quote inside. */
  lemma ClassifyStringShape(s: string, n: nat)
    requires Classify(s) == Some(Lexeme(Some(StringLiteral), n))
    ensures 2 <= n <= |s|
    ensures IsQuote(s[0]) && s[n - 1] == s[0]
    ensures forall i :: 0 < i < n - 1 ==> s[i] != s[0]
  {
  }

  /** A string the table reads is quoted, with no inner copy of its quote. */
  lemma StringShape(s: string, n: nat)
    requires LexemeOf(Spec, s) == Some(Lexeme(Some(StringLiteral), n))
    ensures 2 <= n <= |s|
    ensures IsQuote(s[0]) && s[n - 1] == s[0]
    ensures forall i :: 0 < i < n - 1 ==> s[i] != s[0]
  {
    ClassifyAgrees(s);
    ClassifyStringShape(s, n);
  }

  /** A quote closed later in the text starts a string up to the first
      closing quote. */
  lemma ClosedString(s: string, k: nat)
    requires 0 < k < |s| && IsQuote(s[0]) && s[k] == s[0]
    requires forall i :: 0 < i < k ==> s[i] != s[0]
    ensures LexemeOf(Spec, s) == Some(Lexeme(Some(StringLiteral), k + 1))
  {
    var q := s[0];
    RunUnique(s[1..], c => c != q, k - 1);
    TableReads(s, Some(Lexeme(Some(StringLiteral), k + 1)));
  }

  // ---------------------------------------------------------------------
  // White space and comments

  /** `s` starts with a `//` comment of length `n`, which runs up to the
      next line terminator or the end. */
  predicate LineCommentAt(s: string, n: nat) {
    && 2 <= n <= |s| && s[0] == '/' && s[1] == '/'
    && (forall i :: 2 <= i < n ==> !IsLineTerminator(s[i]))
    && (n == |s| || IsLineTerminator(s[n]))
  }

  /** `s` starts with a block comment of length `n`, which ends at the first
      star-slash after the opener. */
  predicate BlockCommentAt(s: string, n: nat) {
    && 4 <= n <= |s| && s[0] == '/' && s[1] == '*' && s[n - 2] == '*' && s[n - 1] == '/'
    && (forall j :: 2 <= j < n - 2 ==> !(s[j] == '*' && s[j + 1] == '/'))
  }

  /** A discarded lexeme is one white-space character, a line comment or a
      block comment, and those are never read as tokens. */
  lemma ClassifyDiscardShape(s: string, n: nat)
    requires Classify(s) == Some(Lexeme(None, n))
    ensures (n == 1 && IsSpace(s[0])) || LineCommentAt(s, n) || BlockCommentAt(s, n)
  {
  }

  /** What the table discards is white space or a comment. */
  lemma DiscardShape(s: string, n: nat)
    requires LexemeOf(Spec, s) == Some(Lexeme(None, n))
    ensures (n == 1 && IsSpace(s[0])) || LineCommentAt(s, n) || BlockCommentAt(s, n)
  {
    ClassifyAgrees(s);
    ClassifyDiscardShape(s, n);
  }

  /** Conversely every white-space character and every comment is discarded. */
  lemma DiscardsEverything(s: string, n: nat)
    requires (n == 1 && 0 < |s| && IsSpace(s[0])) || LineCommentAt(s, n) || BlockCommentAt(s, n)
    ensures LexemeOf(Spec, s) == Some(Lexeme(None, n))
  {
    if LineCommentAt(s, n) {
      RunUnique(s[2..], NotLineTerminator, n - 2);
    } else if BlockCommentAt(s, n) {
      assert FindClose(s, 2) == Some(n - 2);
    }
    TableReads(s, Some(Lexeme(None, n)));
  }

  // ---------------------------------------------------------------------
  // Syntax errors

  /** The characters some operator starts with. */
  const OperatorChars: string := "=!&|+-*/<>"

  /** No rule matches at the start of `s`: it is empty, a quote is never
      closed, `&` or `|` stands alone, or the first character starts no
      lexeme at all. */
  predicate Unlexable(s: string) {
    || |s| == 0
    || (IsQuote(s[0]) && forall i :: 0 < i < |s| ==> s[i] != s[0])
    || (s[0] == '&' && !(2 <= |s| && s[1] == '&'))
    || (s[0] == '|' && !(2 <= |s| && s[1] == '|'))
    || (&& !IsSpace(s[0]) && !IsWordChar(s[0]) && !IsQuote(s[0])
        && s[0] !in DelimiterChars && s[0] !in OperatorChars)
  }

  /** The reference lexer reads nothing exactly on `Unlexable` inputs. */
  lemma ClassifyNothingIff(s: string)
    ensures Classify(s).None? <==> Unlexable(s)
  {
    if |s| == 0 {
    } else if IsSpace(s[0]) || s[0] == '/' {
      assert Classify(s).Some?;
      assert !Unlexable(s);
    } else {
      assert DiscardLength(s) == 0;
      if IsQuote(s[0]) {
        var q := s[0];
        var n := Run(s[1..], c => c != q);
        assert 1 + n < |s| ==> s[1 + n] == q;
        assert Classify(s) == StringLexeme(s);
      } else if s[0] in DelimiterChars || IsWordChar(s[0]) {
        assert Classify(s).Some?;
      } else {
        assert Classify(s) == OperatorLexeme(s);
      }
    }
  }

  /** The table matches nothing exactly on the inputs described by `Unlexable`. */
  lemma NothingMatchesIff(s: string)
    ensures LexemeOf(Spec, s).None? <==> Unlexable(s)
  {
    ClassifyAgrees(s);
    ClassifyNothingIff(s);
  }
}
