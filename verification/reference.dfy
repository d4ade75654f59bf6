/**
 A reference lexer that dispatches on the leading character and then reads
 as far as that kind of lexeme needs, independently of the ordered rule
 table, and the theorem that the table's first-match scan agrees with it on
 every input.
 */
module Reference {
  import opened Wrappers
  import opened Chars
  import opened Patterns
  import opened Rules

  /** The length of the white space or comment at the start of `s`, 0 if none:
      one white-space character; `//` up to (not including) the next line
      terminator; `/*` up to and including the first `*/` after it. */
  function DiscardLength(s: string): (n: nat)
    ensures n <= |s|
  {
    if |s| == 0 then 0
    else if IsSpace(s[0]) then 1
    else if 2 <= |s| && s[0] == '/' && s[1] == '/' then 2 + Run(s[2..], NotLineTerminator)
    else if 2 <= |s| && s[0] == '/' && s[1] == '*' then
      match FindClose(s, 2)
      case Some(k) => k + 2
      case None => 0
    else 0
  }

  /** A run of word characters: a keyword when the whole run is one, a
      number when it starts with a digit (the digits only), else an identifier. */
  function WordLexeme(s: string): Lexeme
    requires 0 < |s| && IsWordChar(s[0])
  {
    var w := s[..Run(s, IsWordChar)];
    if w in KeywordWords then Lexeme(Some(Keyword(w)), |w|)
    else if IsDigit(s[0]) then Lexeme(Some(Number), Run(s, IsDigit))
    else Lexeme(Some(Identifier), |w|)
  }

  /** Whether `s` continues with `=` right after its first character. */
  predicate EqualsNext(s: string) {
    2 <= |s| && s[1] == '='
  }

  /** Operators, dispatched on the leading character; a two-character form
      is taken whenever its second character follows. */
  function OperatorLexeme(s: string): Option<Lexeme>
    requires 0 < |s|
  {
    match s[0]
    case '=' => if EqualsNext(s) then Some(Lexeme(Some(EqualityOperator), 2)) else Some(Lexeme(Some(SimpleAssign), 1))
    case '!' => if EqualsNext(s) then Some(Lexeme(Some(EqualityOperator), 2)) else Some(Lexeme(Some(LogicalNot), 1))
    case '&' => if 2 <= |s| && s[1] == '&' then Some(Lexeme(Some(LogicalAnd), 2)) else None
    case '|' => if 2 <= |s| && s[1] == '|' then Some(Lexeme(Some(LogicalOr), 2)) else None
    case '+' => if EqualsNext(s) then Some(Lexeme(Some(ComplexAssign), 2)) else Some(Lexeme(Some(AdditiveOperator), 1))
    case '-' => if EqualsNext(s) then Some(Lexeme(Some(ComplexAssign), 2)) else Some(Lexeme(Some(AdditiveOperator), 1))
    case '*' => if EqualsNext(s) then Some(Lexeme(Some(ComplexAssign), 2)) else Some(Lexeme(Some(MultiplicativeOperator), 1))
    case '/' => if EqualsNext(s) then Some(Lexeme(Some(ComplexAssign), 2)) else Some(Lexeme(Some(MultiplicativeOperator), 1))
    case '<' => if EqualsNext(s) then Some(Lexeme(Some(RelationalOperator), 2)) else Some(Lexeme(Some(RelationalOperator), 1))
    case '>' => if EqualsNext(s) then Some(Lexeme(Some(RelationalOperator), 2)) else Some(Lexeme(Some(RelationalOperator), 1))
    case _ => None
  }

  /** A quoted string up to the next occurrence of its opening quote. */
  function StringLexeme(s: string): Option<Lexeme>
    requires 0 < |s|
  {
    var q := s[0];
    var n := Run(s[1..], c => c != q);
    if 1 + n < |s| then Some(Lexeme(Some(StringLiteral), n + 2)) else None
  }

  predicate IsQuote(c: char) {
    c == '"' || c == '\''
  }

  /** The reference lexer: the lexeme at the start of `s`, or `None` when no
      lexeme starts there. */
  function Classify(s: string): Option<Lexeme> {
    if |s| == 0 then None
    else if DiscardLength(s) > 0 then Some(Lexeme(None, DiscardLength(s)))
    else if s[0] in DelimiterChars then Some(Lexeme(Some(Delimiter(s[0])), 1))
    else if IsWordChar(s[0]) then Some(WordLexeme(s))
    else if IsQuote(s[0]) then StringLexeme(s)
    else OperatorLexeme(s)
  }

  // ---------------------------------------------------------------------
  // The table, group by group

  lemma DiscardsUnfold(s: string)
    ensures LexemeOf(Discards, s) ==
            Prefer(Match(Space, s), None, Prefer(Match(LineComment, s), None, Prefer(Match(BlockComment, s), None, None)))
  {
    var d := Discards;
    assert d == [d[0]] + ([d[1]] + ([d[2]] + []));
    LexemeOfCons(d[0], [d[1]] + ([d[2]] + []), s);
    LexemeOfCons(d[1], [d[2]] + [], s);
    LexemeOfCons(d[2], [], s);
  }

  lemma DiscardsAgree(s: string)
    ensures LexemeOf(Discards, s) == if DiscardLength(s) > 0 then Some(Lexeme(None, DiscardLength(s))) else None
  {
    DiscardsUnfold(s);
  }

  lemma {:induction false} DelimitersAgree(cs: string, s: string)
    ensures LexemeOf(DelimiterRules(cs), s) ==
            if 0 < |s| && s[0] in cs then Some(Lexeme(Some(Delimiter(s[0])), 1)) else None
  {
    if |cs| > 0 {
      var r := Rule(Literal([cs[0]]), Some(Delimiter(cs[0])));
      LexemeOfCons(r, DelimiterRules(cs[1..]), s);
      DelimitersAgree(cs[1..], s);
      if 0 < |s| {
        assert s[..1] == [s[0]];
        assert s[0] in cs <==> s[0] == cs[0] || s[0] in cs[1..] by {
          assert cs == [cs[0]] + cs[1..];
        }
      }
    }
  }

  /** A non-empty run of word characters. */
  predicate IsWord(w: string) {
    0 < |w| && forall i :: 0 <= i < |w| ==> IsWordChar(w[i])
  }

  /** `/^\bw\b/` matches exactly when the maximal word run is `w`. */
  lemma WordMatch(w: string, s: string)
    requires IsWord(w)
    ensures Match(Word(w), s).Some? <==> w == s[..Run(s, IsWordChar)]
    ensures Match(Word(w), s).Some? ==> Match(Word(w), s).value == |w|
  {
    var n := Run(s, IsWordChar);
    if Match(Word(w), s).Some? {
      assert s[..|w|] == w;
      forall i | 0 <= i < |w| ensures IsWordChar(s[i]) {
        assert s[i] == w[i];
      }
      assert WordAt(s, |w| - 1);
      RunUnique(s, IsWordChar, |w|);
    }
    if w == s[..n] {
      assert w[0] == s[0];
      assert WordAt(s, n - 1);
    }
  }

  lemma {:induction false} KeywordsAgree(ws: seq<string>, s: string)
    requires forall i :: 0 <= i < |ws| ==> IsWord(ws[i])
    ensures LexemeOf(KeywordRules(ws), s) ==
            var w := s[..Run(s, IsWordChar)];
            if w in ws then Some(Lexeme(Some(Keyword(w)), |w|)) else None
  {
    if |ws| > 0 {
      LexemeOfCons(Rule(Word(ws[0]), Some(Keyword(ws[0]))), KeywordRules(ws[1..]), s);
      KeywordsAgree(ws[1..], s);
      WordMatch(ws[0], s);
      var w := s[..Run(s, IsWordChar)];
      assert w in ws <==> w == ws[0] || w in ws[1..] by {
        assert ws == [ws[0]] + ws[1..];
      }
    }
  }

  lemma KeywordWordsAreWords()
    ensures forall i :: 0 <= i < |KeywordWords| ==> IsWord(KeywordWords[i])
  {
  }

  lemma NamesUnfold(s: string)
    ensures LexemeOf(Names, s) ==
            Prefer(Match(Digits, s), Some(Number), Prefer(Match(WordChars, s), Some(Identifier), None))
  {
    var d := Names;
    assert d == [d[0]] + ([d[1]] + []);
    LexemeOfCons(d[0], [d[1]] + [], s);
    LexemeOfCons(d[1], [], s);
  }

  /** A greedy run is non-empty exactly when its first character qualifies. */
  lemma RunStarts(s: string, p: char -> bool)
    ensures 0 < Run(s, p) <==> 0 < |s| && p(s[0])
  {
  }

  lemma NamesCases(s: string)
    ensures Prefer(Match(Digits, s), Some(Number), Prefer(Match(WordChars, s), Some(Identifier), None)) ==
            if 0 < |s| && IsDigit(s[0]) then Some(Lexeme(Some(Number), Run(s, IsDigit)))
            else if 0 < |s| && IsWordChar(s[0]) then Some(Lexeme(Some(Identifier), Run(s, IsWordChar)))
            else None
  {
    RunStarts(s, IsDigit);
    RunStarts(s, IsWordChar);
  }

  lemma NamesAgree(s: string)
    ensures LexemeOf(Names, s) ==
            if 0 < |s| && IsDigit(s[0]) then Some(Lexeme(Some(Number), Run(s, IsDigit)))
            else if 0 < |s| && IsWordChar(s[0]) then Some(Lexeme(Some(Identifier), Run(s, IsWordChar)))
            else None
  {
    NamesUnfold(s);
    NamesCases(s);
  }

  lemma OperatorsUnfold(s: string)
    ensures LexemeOf(Operators, s) ==
            Prefer(Match(OneOfThenEq({'=', '!'}), s), Some(EqualityOperator),
            Prefer(Match(Literal("&&"), s), Some(LogicalAnd),
            Prefer(Match(Literal("||"), s), Some(LogicalOr),
            Prefer(Match(Literal("!"), s), Some(LogicalNot),
            Prefer(Match(Literal("="), s), Some(SimpleAssign),
            Prefer(Match(OneOfThenEq({'*', '/', '+', '-'}), s), Some(ComplexAssign),
            Prefer(Match(OneOfOptEq({'>', '<'}), s), Some(RelationalOperator),
            Prefer(Match(OneOf({'+', '-'}), s), Some(AdditiveOperator),
            Prefer(Match(OneOf({'*', '/'}), s), Some(MultiplicativeOperator), None)))))))))
  {
    var o := Operators;
    assert o == [o[0]] + ([o[1]] + ([o[2]] + ([o[3]] + ([o[4]] + ([o[5]] + ([o[6]] + ([o[7]] + ([o[8]] + []))))))));
    LexemeOfCons(o[0], [o[1]] + ([o[2]] + ([o[3]] + ([o[4]] + ([o[5]] + ([o[6]] + ([o[7]] + ([o[8]] + []))))))), s);
    LexemeOfCons(o[1], [o[2]] + ([o[3]] + ([o[4]] + ([o[5]] + ([o[6]] + ([o[7]] + ([o[8]] + [])))))), s);
    LexemeOfCons(o[2], [o[3]] + ([o[4]] + ([o[5]] + ([o[6]] + ([o[7]] + ([o[8]] + []))))), s);
    LexemeOfCons(o[3], [o[4]] + ([o[5]] + ([o[6]] + ([o[7]] + ([o[8]] + [])))), s);
    LexemeOfCons(o[4], [o[5]] + ([o[6]] + ([o[7]] + ([o[8]] + []))), s);
    LexemeOfCons(o[5], [o[6]] + ([o[7]] + ([o[8]] + [])), s);
    LexemeOfCons(o[6], [o[7]] + ([o[8]] + []), s);
    LexemeOfCons(o[7], [o[8]] + [], s);
    LexemeOfCons(o[8], [], s);
  }

  lemma OperatorsCases(s: string)
    requires 0 < |s|
    ensures Prefer(Match(OneOfThenEq({'=', '!'}), s), Some(EqualityOperator),
            Prefer(Match(Literal("&&"), s), Some(LogicalAnd),
            Prefer(Match(Literal("||"), s), Some(LogicalOr),
            Prefer(Match(Literal("!"), s), Some(LogicalNot),
            Prefer(Match(Literal("="), s), Some(SimpleAssign),
            Prefer(Match(OneOfThenEq({'*', '/', '+', '-'}), s), Some(ComplexAssign),
            Prefer(Match(OneOfOptEq({'>', '<'}), s), Some(RelationalOperator),
            Prefer(Match(OneOf({'+', '-'}), s), Some(AdditiveOperator),
            Prefer(Match(OneOf({'*', '/'}), s), Some(MultiplicativeOperator), None)))))))))
            == OperatorLexeme(s)
  {
    if 2 <= |s| {
      assert s[..2] == [s[0], s[1]];
    }
    assert s[..1] == [s[0]];
  }

  lemma OperatorsAgree(s: string)
    requires 0 < |s|
    ensures LexemeOf(Operators, s) == OperatorLexeme(s)
  {
    OperatorsUnfold(s);
    OperatorsCases(s);
  }

  lemma StringsAgree(s: string)
    requires 0 < |s|
    ensures LexemeOf(Strings, s) == if IsQuote(s[0]) then StringLexeme(s) else None
  {
    assert Strings == [Strings[0]] + ([Strings[1]] + []);
    LexemeOfCons(Strings[0], [Strings[1]] + [], s);
    LexemeOfCons(Strings[1], [], s);
  }

  // ---------------------------------------------------------------------
  // The whole table

  lemma SpecUnfold(s: string)
    ensures LexemeOf(Spec, s) ==
            OrElse(LexemeOf(Discards, s), OrElse(LexemeOf(DelimiterRules(DelimiterChars), s),
            OrElse(LexemeOf(KeywordRules(KeywordWords), s), OrElse(LexemeOf(Names, s),
            OrElse(LexemeOf(Operators, s), LexemeOf(Strings, s))))))
  {
    var d, p, k := Discards, DelimiterRules(DelimiterChars), KeywordRules(KeywordWords);
    LexemeOfAppend(d + p + k + Names + Operators, Strings, s);
    LexemeOfAppend(d + p + k + Names, Operators, s);
    LexemeOfAppend(d + p + k, Names, s);
    LexemeOfAppend(d + p, k, s);
    LexemeOfAppend(d, p, s);
  }

  lemma EmptyMatchesNothing(rules: seq<Rule>)
    ensures LexemeOf(rules, []) == None
  {
  }

  /** The table's first-match scan and the reference lexer agree on every
      input: same kind (or discard), same length, same failure. */
  lemma ClassifyAgrees(s: string)
    ensures LexemeOf(Spec, s) == Classify(s)
  {
    SpecUnfold(s);
    if |s| == 0 {
      EmptyMatchesNothing(Spec);
    } else {
      DiscardsAgree(s);
      DelimitersAgree(DelimiterChars, s);
      KeywordWordsAreWords();
      KeywordsAgree(KeywordWords, s);
      NamesAgree(s);
      OperatorsAgree(s);
      StringsAgree(s);
      GroupsAgree(s);
    }
  }

  lemma GroupsAgree(s: string)
    requires 0 < |s|
    ensures OrElse(if DiscardLength(s) > 0 then Some(Lexeme(None, DiscardLength(s))) else None,
            OrElse(if s[0] in DelimiterChars then Some(Lexeme(Some(Delimiter(s[0])), 1)) else None,
            OrElse((var w := s[..Run(s, IsWordChar)]; if w in KeywordWords then Some(Lexeme(Some(Keyword(w)), |w|)) else None),
            OrElse((if IsDigit(s[0]) then Some(Lexeme(Some(Number), Run(s, IsDigit)))
                    else if IsWordChar(s[0]) then Some(Lexeme(Some(Identifier), Run(s, IsWordChar)))
                    else None),
            OrElse(OperatorLexeme(s), if IsQuote(s[0]) then StringLexeme(s) else None)))))
            == Classify(s)
  {
    RunStarts(s, IsWordChar);
    if !IsWordChar(s[0]) {
      KeywordWordsAreWords();
      assert s[..Run(s, IsWordChar)] == [];
    }
  }
}
