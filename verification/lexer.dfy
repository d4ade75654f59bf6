/**
 The tokenizer object: the input text, a cursor into it, and `getNextToken`,
 which scans the rule table at the cursor, skips white space and comments by
 scanning again, and returns the next token, `null` at end of input, or a
 syntax error naming the first character no rule matches.

 `getNextToken` is first defined over any scanner (a function giving the
 lexeme at the start of a string), so that its control flow can be reasoned
 about without unfolding the table; the source's tokenizer is that loop
 over the first-match scan of `Spec`, which agrees with the reference lexer.
 */
module Lexer {
  import opened Wrappers
  import opened Chars
  import opened Patterns
  import opened Rules
  import opened Reference

  /** A token: its type and the text it was matched from. */
  datatype Token = Token(kind: Kind, value: string)

  /** What one call yields: a token, `null`, or a thrown `SyntaxError`
      carrying the offending character. */
  datatype Reply = Emit(token: Token) | Null | SyntaxError(ch: char)

  /** The tokenizer's state. */
  datatype Tokenizer = Tokenizer(text: string, cursor: nat) {
    /** The cursor never passes the end of the text. */
    predicate Valid() {
      cursor <= |text|
    }

    predicate IsEOF() {
      cursor == |text|
    }

    predicate HasMoreTokens() {
      cursor < |text|
    }
  }

  /** The state after a call, and what the call returned (or threw). */
  datatype Step = Step(after: Tokenizer, reply: Reply)

  /** A fresh tokenizer over `s`. */
  function Init(s: string): (t: Tokenizer)
    ensures t.Valid() && t.text == s && t.cursor == 0
  {
    Tokenizer(s, 0)
  }

  /** The lexeme at the start of a string, if any. */
  type Scanner = string -> Option<Lexeme>

  /** Every lexeme the scanner reads is a non-empty prefix of the string, so
      each call makes progress and stays within the text. */
  ghost predicate Consumes(scan: Scanner) {
    forall s :: scan(s).Some? ==> 0 < scan(s).value.length <= |s|
  }

  // ---------------------------------------------------------------------
  // getNextToken over any scanner

  /** `getNextToken` with scanner `scan`: if the cursor is at the end, `null`;
      otherwise the lexeme at the cursor decides, a discarded one is skipped
      by scanning again from after it, and no lexeme at all is a syntax error
      on the first remaining character. Whatever the scanner, the cursor only
      moves forward and stays within the text, and a token's value is the
      text it was read from, ending at the new cursor. */
  function Next(scan: Scanner, t: Tokenizer): (r: Step)
    requires Consumes(scan)
    decreases |t.text| - t.cursor
    ensures r.after.text == t.text
    ensures t.cursor <= r.after.cursor
    ensures t.Valid() ==> r.after.Valid()
    ensures r.reply.Null? && t.Valid() ==> r.after.IsEOF()
    ensures r.reply.Emit? ==>
              var v := r.reply.token.value;
              && 0 < |v|
              && t.cursor + |v| <= r.after.cursor <= |t.text|
              && v == t.text[r.after.cursor - |v|..r.after.cursor]
    ensures r.reply.SyntaxError? ==>
              r.after.cursor < |t.text| && r.reply.ch == t.text[r.after.cursor]
  {
    if !t.HasMoreTokens() then Step(t, Null)
    else
      var rest := t.text[t.cursor..];
      match scan(rest)
      case None => Step(t, SyntaxError(rest[0]))
      case Some(lexeme) =>
        var n := lexeme.length;
        var after := Tokenizer(t.text, t.cursor + n);
        match lexeme.kind
        case None => Next(scan, after)
        case Some(k) => Step(after, Emit(Token(k, t.text[t.cursor..t.cursor + n])))
  }

  /** The length of the discarded lexeme `scan` reads at the start of `s`,
      or 0 when it reads a token or nothing there. */
  function DiscardBy(scan: Scanner, s: string): (n: nat)
    ensures n > 0 <==> scan(s).Some? && scan(s).value.kind.None? && scan(s).value.length > 0
    ensures n > 0 ==> scan(s).value.length == n
  {
    match scan(s)
    case Some(Lexeme(None, n)) => n
    case _ => 0
  }

  /** `text[from..to]` is a run of lexemes that `scan` discards, cut exactly
      as the tokenizer skips them when it starts scanning at `from`. */
  ghost predicate SkipsBy(scan: Scanner, text: string, from: nat, to: nat)
    decreases to - from
  {
    from == to ||
    (from < to <= |text| && var n := DiscardBy(scan, text[from..]); 0 < n && SkipsBy(scan, text, from + n, to))
  }

  /** A call from `t` that ended at `after` emitted `tok`: discarded lexemes
      were skipped up to where the token starts, the token's value is the
      text from there to the new cursor, and `scan` reads its kind and length
      there. */
  ghost predicate EmittedBy(scan: Scanner, t: Tokenizer, after: Tokenizer, tok: Token) {
    var start := after.cursor - |tok.value|;
    && t.cursor <= start < after.cursor <= |t.text|
    && tok.value == t.text[start..after.cursor]
    && SkipsBy(scan, t.text, t.cursor, start)
    && scan(t.text[start..]) == Some(Lexeme(Some(tok.kind), |tok.value|))
  }

  /** A call from `t` threw on `ch`: discarded lexemes were skipped up to the
      new cursor, which holds `ch`, and `scan` reads nothing there. */
  ghost predicate StuckBy(scan: Scanner, t: Tokenizer, after: Tokenizer, ch: char) {
    && t.cursor <= after.cursor < |t.text|
    && ch == t.text[after.cursor]
    && SkipsBy(scan, t.text, t.cursor, after.cursor)
    && scan(t.text[after.cursor..]).None?
  }

  /** A discarded lexeme is skipped: the call continues from after it. */
  lemma NextSkips(scan: Scanner, t: Tokenizer, n: nat)
    requires Consumes(scan) && t.HasMoreTokens()
    requires 0 < n == DiscardBy(scan, t.text[t.cursor..])
    ensures Next(scan, t) == Next(scan, Tokenizer(t.text, t.cursor + n))
  {
  }

  /** `null` comes back exactly when nothing but discarded lexemes is left
      from the cursor on (in particular when the cursor is at the end). */
  lemma {:induction false} NullIffOnlySkipped(scan: Scanner, t: Tokenizer)
    requires Consumes(scan)
    decreases |t.text| - t.cursor
    ensures Next(scan, t).reply.Null? <==> !t.HasMoreTokens() || SkipsBy(scan, t.text, t.cursor, |t.text|)
  {
    if t.HasMoreTokens() {
      var n := DiscardBy(scan, t.text[t.cursor..]);
      if 0 < n {
        NextSkips(scan, t, n);
        NullIffOnlySkipped(scan, Tokenizer(t.text, t.cursor + n));
      }
    }
  }

  /** A token is read right after the discarded lexemes the call skipped,
      with the kind and length the scanner reads there. */
  lemma {:induction false} EmitAfterSkipped(scan: Scanner, t: Tokenizer)
    requires Consumes(scan)
    decreases |t.text| - t.cursor
    ensures Next(scan, t).reply.Emit? ==> EmittedBy(scan, t, Next(scan, t).after, Next(scan, t).reply.token)
  {
    if t.HasMoreTokens() {
      var n := DiscardBy(scan, t.text[t.cursor..]);
      if 0 < n {
        var t' := Tokenizer(t.text, t.cursor + n);
        var r := Next(scan, t');
        NextSkips(scan, t, n);
        EmitAfterSkipped(scan, t');
        if r.reply.Emit? {
          EmittedSkip(scan, t, n, r.after, r.reply.token);
        }
      } else {
        NextReads(scan, t);
        assert SkipsBy(scan, t.text, t.cursor, t.cursor);
      }
    }
  }

  /** A token emitted after a discarded lexeme is emitted from before it too. */
  lemma EmittedSkip(scan: Scanner, t: Tokenizer, n: nat, after: Tokenizer, tok: Token)
    requires t.HasMoreTokens() && 0 < n == DiscardBy(scan, t.text[t.cursor..])
    requires EmittedBy(scan, Tokenizer(t.text, t.cursor + n), after, tok)
    ensures EmittedBy(scan, t, after, tok)
  {
    var start := after.cursor - |tok.value|;
    assert SkipsBy(scan, t.text, t.cursor + n, start);
  }

  /** A syntax error is raised right after the discarded lexemes the call
      skipped, on a character where the scanner reads nothing. */
  lemma {:induction false} ErrorAfterSkipped(scan: Scanner, t: Tokenizer)
    requires Consumes(scan)
    decreases |t.text| - t.cursor
    ensures Next(scan, t).reply.SyntaxError? ==> StuckBy(scan, t, Next(scan, t).after, Next(scan, t).reply.ch)
  {
    if t.HasMoreTokens() {
      var n := DiscardBy(scan, t.text[t.cursor..]);
      if 0 < n {
        NextSkips(scan, t, n);
        ErrorAfterSkipped(scan, Tokenizer(t.text, t.cursor + n));
      }
    }
  }

  /** Two scanners that agree on every string give the same calls. */
  lemma {:induction false} NextCongruent(f: Scanner, g: Scanner, t: Tokenizer)
    requires Consumes(f) && Consumes(g)
    requires forall s :: f(s) == g(s)
    decreases |t.text| - t.cursor
    ensures Next(f, t) == Next(g, t)
  {
    if t.HasMoreTokens() {
      var rest := t.text[t.cursor..];
      assert f(rest) == g(rest);
      var n := DiscardBy(f, rest);
      if 0 < n {
        NextSkips(f, t, n);
        NextSkips(g, t, n);
        NextCongruent(f, g, Tokenizer(t.text, t.cursor + n));
      }
    }
  }

  // ---------------------------------------------------------------------
  // The source's tokenizer

  /** The scan the source's `getNextToken` runs at the cursor: the first rule
      of `Spec` that matches the rest of the text. */
  function SpecLexeme(s: string): Option<Lexeme> {
    LexemeOf(Spec, s)
  }

  /** Every rule of the table reads a non-empty prefix, so the tokenizer
      always makes progress. */
  lemma SpecConsumes()
    ensures Consumes(SpecLexeme)
  {
    forall s ensures SpecLexeme(s).Some? ==> 0 < SpecLexeme(s).value.length <= |s| {
      LexemeOfBounds(Spec, s);
    }
  }

  /** The source's scan is the reference lexer. */
  lemma SpecIsClassify()
    ensures forall s :: SpecLexeme(s) == Classify(s)
  {
    forall s ensures SpecLexeme(s) == Classify(s) {
      ClassifyAgrees(s);
    }
  }

  /** `text[from..to]` is a run of white space and comments, cut exactly as
      the tokenizer skips them when it starts scanning at `from`. */
  ghost predicate Skips(text: string, from: nat, to: nat)
    decreases to - from
  {
    from == to ||
    (from < to <= |text| && var n := DiscardLength(text[from..]); 0 < n && Skips(text, from + n, to))
  }

  /** A call starting at `t` that ended at `after` emitted `tok`: white space
      and comments were skipped up to where the token starts, the token's
      value is the text from there to the new cursor, and the reference lexer
      reads that kind and length there. */
  ghost predicate Emitted(t: Tokenizer, after: Tokenizer, tok: Token) {
    var start := after.cursor - |tok.value|;
    && t.cursor <= start < after.cursor <= |t.text|
    && tok.value == t.text[start..after.cursor]
    && Skips(t.text, t.cursor, start)
    && Classify(t.text[start..]) == Some(Lexeme(Some(tok.kind), |tok.value|))
  }

  /** A call starting at `t` threw on character `ch`: white space and
      comments were skipped up to the new cursor, which holds `ch`, and no
      lexeme starts there. */
  ghost predicate Stuck(t: Tokenizer, after: Tokenizer, ch: char) {
    && t.cursor <= after.cursor < |t.text|
    && ch == t.text[after.cursor]
    && Skips(t.text, t.cursor, after.cursor)
    && Classify(t.text[after.cursor..]).None?
  }

  /** The reference lexer discards exactly the white space and comments. */
  lemma DiscardByClassify(s: string)
    ensures DiscardBy(Classify, s) == DiscardLength(s)
  {
    ClassifyDiscard(s, DiscardLength(s));
  }

  lemma ClassifyDiscard(s: string, n: nat)
    ensures Classify(s) == Some(Lexeme(None, n)) <==> 0 < n && DiscardLength(s) == n
  {
  }

  /** A scanner that discards exactly the white space and comments skips
      exactly what `Skips` describes. */
  lemma {:induction false} SkipsByDiscards(scan: Scanner, text: string, from: nat, stop: nat)
    requires forall x :: DiscardBy(scan, x) == DiscardLength(x)
    ensures SkipsBy(scan, text, from, stop) <==> Skips(text, from, stop)
    decreases stop - from
  {
    if from < stop <= |text| {
      var n := DiscardLength(text[from..]);
      assert DiscardBy(scan, text[from..]) == n;
      if 0 < n {
        SkipsByDiscards(scan, text, from + n, stop);
      }
    }
  }

  /** Skipping what the reference lexer discards is skipping white space and comments. */
  lemma SkipsByClassify(text: string, from: nat, to: nat)
    ensures SkipsBy(Classify, text, from, to) <==> Skips(text, from, to)
  {
    forall x ensures DiscardBy(Classify, x) == DiscardLength(x) {
      DiscardByClassify(x);
    }
    SkipsByDiscards(Classify, text, from, to);
  }

  /** `EmittedBy` for the reference lexer is `Emitted`. */
  lemma EmittedByClassify(t: Tokenizer, after: Tokenizer, tok: Token)
    requires EmittedBy(Classify, t, after, tok)
    ensures Emitted(t, after, tok)
  {
    SkipsByClassify(t.text, t.cursor, after.cursor - |tok.value|);
  }

  /** `StuckBy` for the reference lexer is `Stuck`. */
  lemma StuckByClassify(t: Tokenizer, after: Tokenizer, ch: char)
    requires StuckBy(Classify, t, after, ch)
    ensures Stuck(t, after, ch)
  {
    SkipsByClassify(t.text, t.cursor, after.cursor);
  }

  /** The reference lexer also reads only non-empty prefixes. */
  lemma ClassifyConsumes()
    ensures Consumes(Classify)
  {
    SpecConsumes();
    SpecIsClassify();
    forall s | Classify(s).Some? ensures 0 < Classify(s).value.length <= |s| {
      assert SpecLexeme(s) == Classify(s);
    }
  }

  /** `getNextToken`: the loop of `Next` over the first-match scan of the
      source's table. */
  function GetNextToken(t: Tokenizer): (r: Step)
    ensures r.after.text == t.text
    ensures t.cursor <= r.after.cursor
    ensures t.Valid() ==> r.after.Valid()
    ensures r.reply.Null? && t.Valid() ==> r.after.IsEOF()
  {
    SpecConsumes();
    Next(SpecLexeme, t)
  }

  /** The source's tokenizer is the same loop over the reference lexer. */
  lemma GetNextTokenIsReference(t: Tokenizer)
    ensures Consumes(Classify)
    ensures GetNextToken(t) == Next(Classify, t)
  {
    SpecConsumes();
    ClassifyConsumes();
    SpecIsClassify();
    NextCongruent(SpecLexeme, Classify, t);
  }

  /** What a call returns, in terms of the reference lexer: `null` exactly
      when only white space and comments are left; otherwise the token the
      reference lexer reads after skipping them, or a syntax error on the
      character where it reads nothing. */
  lemma GetNextTokenAsReference(t: Tokenizer)
    ensures var r := GetNextToken(t);
            && (r.reply.Null? <==> !t.HasMoreTokens() || Skips(t.text, t.cursor, |t.text|))
            && (r.reply.Emit? ==> Emitted(t, r.after, r.reply.token))
            && (r.reply.SyntaxError? ==> Stuck(t, r.after, r.reply.ch))
  {
    GetNextTokenIsReference(t);
    NullIffOnlySkipped(Classify, t);
    EmitAfterSkipped(Classify, t);
    ErrorAfterSkipped(Classify, t);
    SkipsByClassify(t.text, t.cursor, |t.text|);
    var r := Next(Classify, t);
    if r.reply.Emit? {
      EmittedByClassify(t, r.after, r.reply.token);
    } else if r.reply.SyntaxError? {
      StuckByClassify(t, r.after, r.reply.ch);
    }
  }

  /** At the end of the text the call returns `null` and leaves the tokenizer as it is. */
  lemma GetNextTokenAtEnd(t: Tokenizer)
    requires !t.HasMoreTokens()
    ensures GetNextToken(t) == Step(t, Null)
  {
  }

  /** On a fresh tokenizer the first call returns `null` exactly when the
      whole text is white space and comments (the empty text included). */
  lemma InitNullIff(s: string)
    ensures GetNextToken(Init(s)).reply.Null? <==> Skips(s, 0, |s|)
  {
    GetNextTokenAsReference(Init(s));
  }

  /** Once a call has returned `null`, every further call returns `null`
      again and leaves the tokenizer where it is. */
  lemma NullIsFinal(t: Tokenizer)
    requires t.Valid() && GetNextToken(t).reply.Null?
    ensures var after := GetNextToken(t).after;
            GetNextToken(after) == Step(after, Null)
  {
    GetNextTokenAtEnd(GetNextToken(t).after);
  }

  /** A syntax error leaves the cursor on the offending character, so
      calling again throws the same error without moving. */
  lemma ErrorIsSticky(t: Tokenizer)
    requires GetNextToken(t).reply.SyntaxError?
    ensures var r := GetNextToken(t);
            GetNextToken(r.after) == r
  {
    var r := GetNextToken(t);
    GetNextTokenAsReference(t);
    var rest := r.after.text[r.after.cursor..];
    assert Classify(rest).None?;
    assert DiscardLength(rest) == 0;
    GetNextTokenReads(r.after);
  }

  /** Where the scanner reads no discarded lexeme, the call reads the token
      it finds there, or throws on the character at the cursor. */
  lemma NextReads(scan: Scanner, t: Tokenizer)
    requires Consumes(scan) && t.HasMoreTokens()
    requires DiscardBy(scan, t.text[t.cursor..]) == 0
    ensures ReadsAt(t, scan(t.text[t.cursor..]))
    ensures Next(scan, t) == ReadAt(t, scan(t.text[t.cursor..]))
  {
  }

  /** `m` can be what a call reads at the cursor of `t`: nothing, or a
      token lexeme that fits in the rest of the text. */
  predicate ReadsAt(t: Tokenizer, m: Option<Lexeme>) {
    && t.HasMoreTokens()
    && (m.Some? ==> m.value.kind.Some? && 0 < m.value.length <= |t.text| - t.cursor)
  }

  /** The call that reads `m` at the cursor: a syntax error on the character
      there when `m` is nothing, otherwise the token of that kind whose value
      is the next `m.value.length` characters, with the cursor after it. */
  function ReadAt(t: Tokenizer, m: Option<Lexeme>): (r: Step)
    requires ReadsAt(t, m)
    ensures r.after.text == t.text && t.cursor <= r.after.cursor <= |t.text|
    ensures r.reply.SyntaxError? <==> m.None?
    ensures r.reply.Emit? <==> m.Some?
    ensures r.reply.SyntaxError? ==> r.after == t && r.reply.ch == t.text[t.cursor]
    ensures r.reply.Emit? ==>
              && r.after.cursor == t.cursor + m.value.length
              && r.reply.token == Token(m.value.kind.value, t.text[t.cursor..r.after.cursor])
  {
    match m
    case None => Step(t, SyntaxError(t.text[t.cursor]))
    case Some(l) =>
      var c := t.cursor + l.length;
      Step(Tokenizer(t.text, c), Emit(Token(l.kind.value, t.text[t.cursor..c])))
  }

  /** Reading a token of kind `k` emits the word `w` in front of the cursor. */
  lemma ReadAtEmits(t: Tokenizer, k: Kind, w: string)
    requires ReadsAt(t, Some(Lexeme(Some(k), |w|)))
    requires t.text[t.cursor..t.cursor + |w|] == w
    ensures ReadAt(t, Some(Lexeme(Some(k), |w|))) == Step(Tokenizer(t.text, t.cursor + |w|), Emit(Token(k, w)))
  {
  }

  /** White space or a comment at the cursor is skipped: the call gives what
      a call from just after it gives. */
  lemma GetNextTokenSkips(t: Tokenizer, n: nat)
    requires t.HasMoreTokens() && 0 < n == DiscardLength(t.text[t.cursor..])
    ensures GetNextToken(t) == GetNextToken(Tokenizer(t.text, t.cursor + n))
  {
    var t' := Tokenizer(t.text, t.cursor + n);
    GetNextTokenIsReference(t);
    GetNextTokenIsReference(t');
    DiscardByClassify(t.text[t.cursor..]);
    NextSkips(Classify, t, n);
    assert t' == Tokenizer(t.text, t.cursor + n);
  }

  /** Where neither white space nor a comment starts, the call reads the
      reference lexer's token there, or throws on the character at the cursor. */
  lemma GetNextTokenReads(t: Tokenizer)
    requires t.HasMoreTokens() && DiscardLength(t.text[t.cursor..]) == 0
    ensures ReadsAt(t, Classify(t.text[t.cursor..]))
    ensures GetNextToken(t) == ReadAt(t, Classify(t.text[t.cursor..]))
  {
    GetNextTokenIsReference(t);
    DiscardByClassify(t.text[t.cursor..]);
    NextReads(Classify, t);
  }
}
