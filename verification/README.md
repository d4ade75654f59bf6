# Tokenizer of a small recursive-descent language, in Dafny

This project models the lexer of a small JavaScript-hosted language
(`src/Tokenizer.js`). It has two parts:

- `Spec` is an ordered table of regular-expression rules. Each rule maps a
  pattern either to a token type or to "discard" (`null`).
- `Tokenizer` holds the input text and a cursor. Each `getNextToken` call
  does one of three things:
  - it returns the next token, `{type, value}`;
  - it returns `null` at the end of the input;
  - it throws a `SyntaxError` naming the first character that no rule
    matches.

  The first matching rule wins, and `_match` advances the cursor by the
  length of the match. When the winning rule discards (white space or a
  comment), `getNextToken` calls itself again.

The modules follow that structure:

- `Wrappers`: `Option`.
- `Chars`: the character classes the patterns use. These are JavaScript's
  `\s`, `\d` and `\w`, the line terminators that `.` excludes, and the
  greedy run of a class (`+`, `*`).
- `Patterns`: one matcher per shape of regular expression in the table.
  - Each matcher gives the length of the match at the start of the
    string, or `None` when there is no match.
  - `^\bkw\b` is matched against the sliced rest of the text, as in the source.
    So the position before the slice counts as a non-word character: `\b`
    holds at the start of the slice exactly when it starts with a word
    character.
  - The block comment is lazy. It ends at the first `*/` after the opener.
- `Rules`: the table itself, in source order.
  - `FirstMatch` and `ScanRules` model the `for` loop over `Spec`: the first
    rule that matches wins.
  - `LexemeOf` gives the kind and length of the winning rule.
- `Reference`: a second lexer, `Classify`. It dispatches on the leading
  character, then reads as far as that kind of lexeme needs (the word run,
  a following `=`, the closing quote, the first `*/`). `ClassifyAgrees` proves that the table's
  first-match scan gives the same answer on every string.
- `Lexer`: the tokenizer state and `getNextToken`.
  - The loop is first defined over any scanner (`Next`). Its control flow
    (skip, emit, throw) is proved once there.
  - The source's `getNextToken` is `Next` applied to the table's
    first-match scan.
  - The `GetNextToken*` lemmas state what a call returns, in terms of the
    reference lexer.
- `Properties`: what the first-match order decides for single lexemes. This
  covers operators, keywords versus identifiers versus numbers, strings,
  comments, and exactly when nothing matches.
- `Examples`: calls worked out on small inputs, for example `42 `, `1let`,
  `letter`, `!=`, `/* a */ 5`, `@`, `&` and `"abc`.

A thrown `SyntaxError` is modelled as a `SyntaxError(ch)` reply. The
tokenizer state is an immutable value: each call returns the state after it,
together with its reply.

The error carries only the character `string[0]` (src/Tokenizer.js:137).
Its position survives only as the cursor, which stays on that character
after any skipped white space or comments; `Lexer.ErrorIsSticky` states
this.

## Model

| member | source | states |
|---|---|---|
| Lexer.Init | src/Tokenizer.js:97-100 | a fresh tokenizer holds the whole text with the cursor at 0, a valid state |
| Lexer.Next | src/Tokenizer.js:111-138 | for any scanner that only reads non-empty prefixes: the text never changes; the cursor only moves forward and never passes the end; `null` leaves the cursor at the end; an emitted value is non-empty and is exactly the text just before the new cursor; a syntax error names the character at the new cursor |
| Lexer.GetNextToken | src/Tokenizer.js:111-138 | the source's call: the text is unchanged, the cursor is monotone and stays within the text, and `null` only comes back at the end of the input |
| Lexer.NullIffOnlySkipped | src/Tokenizer.js:111-129 | `null` comes back exactly when the cursor is at the end or only discarded lexemes remain, in both directions |
| Lexer.EmitAfterSkipped | src/Tokenizer.js:126-134 | an emitted token starts right after the discarded lexemes the call skipped, its value is the text read, and the scanner reads its kind and length there |
| Lexer.ErrorAfterSkipped | src/Tokenizer.js:126-137 | a syntax error is thrown right after the skipped discarded lexemes, on a character where the scanner reads nothing |
| Lexer.NextCongruent | src/Tokenizer.js:118-135 | the call depends only on what the scan returns: two scanners that agree on every string give identical calls |
| Lexer.SpecConsumes | src/Tokenizer.js:140-146 | every match the table makes is a non-empty prefix of the rest of the text, so each call makes progress |
| Lexer.SpecIsClassify | src/Tokenizer.js:8-94 | the table's first-match scan is the reference lexer on every string |
| Lexer.GetNextTokenIsReference | src/Tokenizer.js:111-138 | the source's call equals the same loop run over the reference lexer |
| Lexer.GetNextTokenAsReference | src/Tokenizer.js:111-138 | in terms of the reference lexer: `null` exactly when only white space and comments remain; otherwise a token read after skipping them, or a syntax error where nothing can be read |
| Lexer.GetNextTokenAtEnd | src/Tokenizer.js:112-114 | at or past the end of the text the call returns `null` and leaves the tokenizer unchanged |
| Lexer.GetNextTokenSkips | src/Tokenizer.js:126-129 | white space or a comment at the cursor is skipped: the call gives what a call just after it gives |
| Lexer.GetNextTokenReads | src/Tokenizer.js:116-137 | where no white space or comment starts, the call emits the reference lexer's token, with the cursor after it, or throws on the character at the cursor |
| Lexer.InitNullIff | src/Tokenizer.js:111-129 | on a fresh tokenizer the first call is `null` exactly when the whole text is white space and comments |
| Lexer.NullIsFinal | src/Tokenizer.js:106-114 | once a call returned `null`, every further call returns `null` and leaves the state alone |
| Lexer.ErrorIsSticky | src/Tokenizer.js:137 | a syntax error leaves the cursor on the offending character, so the next call throws the same error again without moving |
| Patterns.Match | src/Tokenizer.js:11-93 | every pattern of the table matches a non-empty prefix of the string or nothing |
| Patterns.FindClose | src/Tokenizer.js:21 | finds the first `*/` from the given position, and none lies before it; `None` means no `*/` lies anywhere after it |
| Chars.Run | src/Tokenizer.js:56-60 | a greedy run: every character in it has the class, and the character after it (if any) does not |
| Rules.FirstMatch | src/Tokenizer.js:118-135 | the hit names a rule of the table whose pattern matches with the hit's length and whose type is the hit's kind |
| Rules.FirstMatchIsFirst | src/Tokenizer.js:118-124 | no earlier rule matches than the one that wins, and nothing wins exactly when every rule fails |
| Rules.ScanRules | src/Tokenizer.js:118-135 | the loop over the rules returns the first rule that matches |
| Rules.LexemeOfBounds | src/Tokenizer.js:140-146 | a winning match is a non-empty prefix, so the cursor advances by 1 to the rest's length |
| Reference.ClassifyAgrees | src/Tokenizer.js:8-94 | the ordered table's first match equals the leading-character reference lexer on every string |
| Properties.EqualityWins | src/Tokenizer.js:64 | `==` and `!=` are one equality operator, ahead of `=` and `!` |
| Properties.CompoundAssignWins | src/Tokenizer.js:75 | `+=`, `-=`, `*=`, `/=` are one compound assignment, ahead of the arithmetic operators |
| Properties.RelationalIsOneToken | src/Tokenizer.js:79 | `<`, `>`, `<=`, `>=` are one relational operator each, of length 2 exactly when `=` follows |
| Properties.LogicalPairs | src/Tokenizer.js:68-69 | `&&` and `||` are the logical operators |
| Properties.SingleCharOperators | src/Tokenizer.js:70-84 | without a following `=`, `=` is an assignment, `!` is a negation, `+`/`-` are additive and `*`/`/` are multiplicative (`/` only when no comment starts there) |
| Properties.UnclosedBlockComment | src/Tokenizer.js:21 | an opener `/*` with no `*/` after it is not a comment, and its slash is read as a multiplicative operator |
| Properties.KeywordShape | src/Tokenizer.js:37-52 | a keyword is a reserved word that is read whole, with no word character after it |
| Properties.NumberShape | src/Tokenizer.js:56 | a number is the whole leading run of digits |
| Properties.IdentifierShape | src/Tokenizer.js:60 | an identifier is the whole leading run of word characters; it starts with no digit and is no reserved word |
| Properties.WordStart | src/Tokenizer.js:37-60 | at a word character the lexeme is a keyword exactly when the whole word run is a reserved word; otherwise it is the digit run as a number, or the word run as an identifier |
| Properties.StringShape | src/Tokenizer.js:90-93 | a string keeps both quotes, closes with the quote it opened with, and contains no other copy of that quote |
| Properties.ClosedString | src/Tokenizer.js:90-93 | a quote that is closed later starts a string that runs up to the first closing quote |
| Properties.DiscardShape | src/Tokenizer.js:11-21 | what is discarded is one white-space character, a `//` comment up to the line end, or a block comment up to the first `*/` |
| Properties.DiscardsEverything | src/Tokenizer.js:11-21 | conversely, each white-space character and each comment is discarded |
| Properties.NothingMatchesIff | src/Tokenizer.js:118-137 | no rule matches exactly when the rest is empty, a quote is never closed, `&` or `|` stands alone, or the first character can start no lexeme |
| Examples.NumberFirst | src/Tokenizer.js:56 | in `42 `, the first call emits NUMBER `42` |
| Examples.ThenEnd | src/Tokenizer.js:111-129 | in `42 `, the second call skips the trailing space and returns `null` |
| Examples.NumberBeforeKeyword | src/Tokenizer.js:56 | in `1let`, the first call emits NUMBER `1` |
| Examples.KeywordAfterNumber | src/Tokenizer.js:37 | in `1let`, the second call emits the keyword `let` |
| Examples.LetterIsIdentifier | src/Tokenizer.js:37 | `letter` is one IDENTIFIER, not the keyword `let` |
| Examples.LetOneIsIdentifier | src/Tokenizer.js:37 | `let1` is one IDENTIFIER |
| Examples.NotEqualIsOneToken | src/Tokenizer.js:64 | `!=` is one EQUALITY_OPERATOR |
| Examples.AtLeastIsOneToken | src/Tokenizer.js:79 | `>=` is one RELATIONAL_OPERATOR |
| Examples.CommentLength | src/Tokenizer.js:21 | the comment `/* a */` ends at its own `*/` |
| Examples.CommentSkipped | src/Tokenizer.js:126-129 | one call on `/* a */ 5` skips the comment and the space and emits NUMBER `5` |
| Examples.AtSignIsError | src/Tokenizer.js:137 | `@` throws a syntax error on `@` |
| Examples.LoneAmpersandIsError | src/Tokenizer.js:68 | a lone `&` throws a syntax error on `&` |
| Examples.LoneBarIsError | src/Tokenizer.js:69 | a lone `\|` throws a syntax error on `\|` |
| Examples.UnclosedStringIsError | src/Tokenizer.js:90 | the unterminated `"abc` throws a syntax error on the quote |

## Left out

- `src/Parser.js`, the grammar and the AST are not part of this model.
  Neither are the test files.
- Strings are sequences of Dafny `char`s, which are Unicode scalar values.
  One `char` is one UTF-16 code unit only for text in the Basic
  Multilingual Plane outside the surrogate range, and the model is faithful
  for such text only.
- Characters above U+FFFF and lone surrogates are not modelled. For a
  character above U+FFFF the source's `_cursor`, `slice` and `length` count
  two code units where the model's cursor counts one character. A syntax
  error on such a character reports only its high surrogate as
  `string[0]`, for example `\uD83D` for an emoji, where the model reports
  the whole character. A lone surrogate cannot be written as a Dafny
  `char` at all.
- General regular expressions are not modelled. Each pattern of the table
  is a hand-written matcher for its own shape. The white-space set is
  JavaScript's `\s`. `.` excludes `\n`, `\r`, U+2028 and U+2029.
- The engine's call-stack limit is not modelled. Each discarded lexeme is
  skipped by a real recursive call (src/Tokenizer.js:128), and a `\s`
  match is one character. So a run of roughly ten thousand white-space
  characters or comments makes JavaScript throw `RangeError: Maximum call
  stack size exceeded` instead of returning a token or `null`. `Lexer.Next`
  always returns a reply there.
- The `SyntaxError` exception and its message text are modelled as a
  `SyntaxError(ch)` reply. The state the object is left in is the `after`
  state of that reply.
- The tokenizer is an immutable state. The source mutates `_cursor` inside
  `_match`; the model returns the new state instead.
- `isEOF` and `hasMoreTokens` are predicates of the state. They are used in
  contracts, not modelled as separate calls.
- Lexer.GetNextToken: its own contract states only the cheap facts: the text
  is unchanged, the cursor is monotone and stays in range, and `null` comes
  only at the end. What the call returns is stated by the `GetNextToken*`
  lemmas, `NullIffOnlySkipped`, `EmitAfterSkipped` and `ErrorAfterSkipped`.
- Lexer.Next: it is defined over any scanner. The source's `getNextToken` is
  `Next` applied to the table's first-match scan, which is
  `Lexer.GetNextToken`.
