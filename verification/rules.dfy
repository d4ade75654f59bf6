/**
 The tokenizer's ordered rule table and its first-match scan. A rule pairs a
 pattern with the kind of token it produces, or with `None` for text that is
 skipped (white space and comments). The table is written as the groups the
 source lists, concatenated in the source's order.
 */
module Rules {
  import opened Wrappers
  import opened Chars
  import opened Patterns

  /** The token types: the source's type strings `;` ... `]`, the keywords,
      `NUMBER`, `IDENTIFIER`, the operator classes and `STRING`. */
  datatype Kind =
    | Delimiter(symbol: char)
    | Keyword(word: string)
    | Number
    | Identifier
    | EqualityOperator
    | LogicalAnd
    | LogicalOr
    | LogicalNot
    | SimpleAssign
    | ComplexAssign
    | RelationalOperator
    | AdditiveOperator
    | MultiplicativeOperator
    | StringLiteral

  /** One entry of the table; `kind == None` means "discard". */
  datatype Rule = Rule(pattern: Pattern, kind: Option<Kind>)

  /** What a matching rule yields: its kind (or discard) and the match length. */
  datatype Lexeme = Lexeme(kind: Option<Kind>, length: nat)

  /** A match of the rule at `index` of a table. */
  datatype Hit = Hit(index: nat, lexeme: Lexeme)

  /** White space, single-line comments, multi-line comments. */
  const Discards: seq<Rule> :=
    [Rule(Space, None), Rule(LineComment, None), Rule(BlockComment, None)]

  /** The symbols and delimiters, in table order. */
  const DelimiterChars: string := ";{}(),.[]"

  /** One rule per symbol: the character alone, as its own token type. */
  function DelimiterRules(cs: string): (rules: seq<Rule>)
    ensures |rules| == |cs|
  {
    if |cs| == 0 then [] else [Rule(Literal([cs[0]]), Some(Delimiter(cs[0])))] + DelimiterRules(cs[1..])
  }

  /** The reserved words, in table order. */
  const KeywordWords: seq<string> :=
    ["let", "if", "else", "true", "false", "null", "while", "do", "for",
     "def", "return", "class", "extends", "super", "this", "new"]

  /** One rule per reserved word, matched as a whole word. */
  function KeywordRules(ws: seq<string>): (rules: seq<Rule>)
    ensures |rules| == |ws|
  {
    if |ws| == 0 then [] else [Rule(Word(ws[0]), Some(Keyword(ws[0])))] + KeywordRules(ws[1..])
  }

  /** Numbers, then identifiers. */
  const Names: seq<Rule> :=
    [Rule(Digits, Some(Number)), Rule(WordChars, Some(Identifier))]

  /** Equality, logical, assignment, relational and arithmetic operators. */
  const Operators: seq<Rule> :=
    [ Rule(OneOfThenEq({'=', '!'}), Some(EqualityOperator)),
      Rule(Literal("&&"), Some(LogicalAnd)),
      Rule(Literal("||"), Some(LogicalOr)),
      Rule(Literal("!"), Some(LogicalNot)),
      Rule(Literal("="), Some(SimpleAssign)),
      Rule(OneOfThenEq({'*', '/', '+', '-'}), Some(ComplexAssign)),
      Rule(OneOfOptEq({'>', '<'}), Some(RelationalOperator)),
      Rule(OneOf({'+', '-'}), Some(AdditiveOperator)),
      Rule(OneOf({'*', '/'}), Some(MultiplicativeOperator)) ]

  /** Double-quoted strings, then single-quoted strings. */
  const Strings: seq<Rule> :=
    [Rule(Quoted('"'), Some(StringLiteral)), Rule(Quoted('\''), Some(StringLiteral))]

  /** The whole table, in priority order. */
  const Spec: seq<Rule> :=
    Discards + DelimiterRules(DelimiterChars) + KeywordRules(KeywordWords) + Names + Operators + Strings

  /** The earliest rule of `rules` whose pattern matches at the start of `s`. */
  function FirstMatch(rules: seq<Rule>, s: string): (r: Option<Hit>)
    ensures r.Some? ==> r.value.index < |rules|
    ensures r.Some? ==> Match(rules[r.value.index].pattern, s) == Some(r.value.lexeme.length)
    ensures r.Some? ==> r.value.lexeme.kind == rules[r.value.index].kind
  {
    if |rules| == 0 then None
    else match Match(rules[0].pattern, s)
      case Some(n) => Some(Hit(0, Lexeme(rules[0].kind, n)))
      case None =>
        match FirstMatch(rules[1..], s)
        case Some(h) => Some(Hit(h.index + 1, h.lexeme))
        case None => None
  }

  /** The hit is the FIRST matching rule: every earlier rule fails, and
      nothing is found only when every rule fails. */
  lemma {:induction false} FirstMatchIsFirst(rules: seq<Rule>, s: string)
    ensures FirstMatch(rules, s).Some? ==>
              forall j :: 0 <= j < FirstMatch(rules, s).value.index ==> Match(rules[j].pattern, s).None?
    ensures FirstMatch(rules, s).None? <==> forall j :: 0 <= j < |rules| ==> Match(rules[j].pattern, s).None?
  {
    if |rules| > 0 && Match(rules[0].pattern, s).None? {
      FirstMatchIsFirst(rules[1..], s);
      forall j | 1 <= j < |rules| ensures rules[j] == rules[1..][j - 1] {}
    }
  }

  /** The kind and length the first matching rule yields, without its index. */
  function LexemeOf(rules: seq<Rule>, s: string): Option<Lexeme> {
    match FirstMatch(rules, s)
    case Some(h) => Some(h.lexeme)
    case None => None
  }

  /** A lexeme the table reads is a non-empty prefix of the input. */
  lemma LexemeOfBounds(rules: seq<Rule>, s: string)
    ensures LexemeOf(rules, s).Some? ==> 0 < LexemeOf(rules, s).value.length <= |s|
  {
  }

  /** `first` when it is a lexeme, `second` otherwise. */
  function OrElse(first: Option<Lexeme>, second: Option<Lexeme>): Option<Lexeme> {
    if first.Some? then first else second
  }

  /** Scanning a concatenated table: the first group wins whenever it matches. */
  lemma {:induction false} LexemeOfAppend(a: seq<Rule>, b: seq<Rule>, s: string)
    ensures LexemeOf(a + b, s) == OrElse(LexemeOf(a, s), LexemeOf(b, s))
  {
    if |a| > 0 {
      assert (a + b)[0] == a[0];
      assert (a + b)[1..] == a[1..] + b;
      LexemeOfAppend(a[1..], b, s);
    } else {
      assert a + b == b;
    }
  }

  /** The lexeme of a rule whose match is `m`, falling back to `otherwise`. */
  function Prefer(m: Option<nat>, kind: Option<Kind>, otherwise: Option<Lexeme>): Option<Lexeme> {
    match m
    case Some(n) => Some(Lexeme(kind, n))
    case None => otherwise
  }

  /** Scanning a table that starts with rule `r`. */
  lemma LexemeOfCons(r: Rule, rs: seq<Rule>, s: string)
    ensures LexemeOf([r] + rs, s) == Prefer(Match(r.pattern, s), r.kind, LexemeOf(rs, s))
  {
    assert ([r] + rs)[1..] == rs;
  }

  /** The `for` loop of `getNextToken`: try the rules in order and stop at
      the first whose pattern matches `s`. */
  method ScanRules(rules: seq<Rule>, s: string) returns (hit: Option<Hit>)
    ensures hit == FirstMatch(rules, s)
  {
    var i := 0;
    while i < |rules|
      invariant 0 <= i <= |rules|
      invariant FirstMatch(rules, s) == Shift(FirstMatch(rules[i..], s), i)
    {
      assert rules[i..][0] == rules[i] && rules[i..][1..] == rules[i + 1..];
      var m := Match(rules[i].pattern, s);
      if m.Some? {
        return Some(Hit(i, Lexeme(rules[i].kind, m.value)));
      }
      i := i + 1;
    }
    return None;
  }

  /** A hit found in a table with its first `k` rules removed, as a hit in the whole table. */
  function Shift(h: Option<Hit>, k: nat): Option<Hit> {
    match h
    case Some(Hit(i, l)) => Some(Hit(i + k, l))
    case None => None
  }
}
