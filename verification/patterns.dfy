/**
 The prefix patterns of the tokenizer's rule table. Every regular expression
 in the table is anchored with `^` and has one of a few shapes; each shape is
 a constructor of `Pattern`, and `Match` is the hand-written matcher for it:
 the length of the text the expression matches at the start of a string, or
 `None` when it does not match there.
 */
module Patterns {
  import opened Wrappers
  import opened Chars

  datatype Pattern =
    | Space                           // /^\s/
    | LineComment                     // /^\/\/.*/
    | BlockComment                    // /^\/\*[\s\S]*?\*\//
    | Literal(text: string)           // a fixed string: /^;/, /^&&/, /^\|\|/, /^!/, /^=/
    | Word(word: string)              // /^\bword\b/
    | Digits                          // /^\d+/
    | WordChars                       // /^\w+/
    | OneOf(chars: set<char>)         // /^[+-]/, /^[*\/]/
    | OneOfThenEq(chars: set<char>)   // /^[=!]=/, /^[*/+-]=/
    | OneOfOptEq(chars: set<char>)    // /^[><]=?/
    | Quoted(quote: char)             // /^"[^"]*"/, /^'[^']*'/

  /** The first position at or after `k` where `*` `/` closes a block
      comment: what the lazy `[\s\S]*?\*\/` settles on. */
  function FindClose(s: string, k: nat): (r: Option<nat>)
    decreases |s| - k
    ensures r.Some? ==> k <= r.value && r.value + 2 <= |s|
    ensures r.Some? ==> s[r.value] == '*' && s[r.value + 1] == '/'
    ensures r.Some? ==> forall j :: k <= j < r.value ==> !(s[j] == '*' && s[j + 1] == '/')
    ensures r.None? ==> forall j :: k <= j && j + 2 <= |s| ==> !(s[j] == '*' && s[j + 1] == '/')
  {
    if |s| < k + 2 then None
    else if s[k] == '*' && s[k + 1] == '/' then Some(k)
    else FindClose(s, k + 1)
  }

  /** The length of the match of `p` at the start of `s`. Every pattern
      consumes at least one character, so a match always makes progress. */
  function Match(p: Pattern, s: string): (r: Option<nat>)
    ensures r.Some? ==> 0 < r.value <= |s|
  {
    match p
    case Space =>
      if 0 < |s| && IsSpace(s[0]) then Some(1) else None
    case LineComment =>
      if 2 <= |s| && s[0] == '/' && s[1] == '/' then Some(2 + Run(s[2..], NotLineTerminator)) else None
    case BlockComment =>
      if 2 <= |s| && s[0] == '/' && s[1] == '*' then
        match FindClose(s, 2)
        case Some(k) => Some(k + 2)
        case None => None
      else None
    case Literal(t) =>
      if 0 < |t| <= |s| && s[..|t|] == t then Some(|t|) else None
    case Word(w) =>
      if 0 < |w| <= |s| && s[..|w|] == w && Boundary(s, 0) && Boundary(s, |w|) then Some(|w|) else None
    case Digits =>
      var n := Run(s, IsDigit);
      if 0 < n then Some(n) else None
    case WordChars =>
      var n := Run(s, IsWordChar);
      if 0 < n then Some(n) else None
    case OneOf(cs) =>
      if 0 < |s| && s[0] in cs then Some(1) else None
    case OneOfThenEq(cs) =>
      if 2 <= |s| && s[0] in cs && s[1] == '=' then Some(2) else None
    case OneOfOptEq(cs) =>
      if 0 < |s| && s[0] in cs then (if 2 <= |s| && s[1] == '=' then Some(2) else Some(1)) else None
    case Quoted(q) =>
      if 0 < |s| && s[0] == q then
        var n := Run(s[1..], c => c != q);
        if 1 + n < |s| then Some(n + 2) else None
      else None
  }
}
