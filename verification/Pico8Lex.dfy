/** How the shorthand rewriter reads PICO-8 source: tokens, and the search for a closing
    parenthesis. Positions are indexes into the text. */
module Pico8Lex {
  import opened Characters
  import opened Options

  predicate NameStart(c: char) {
    Letter(c) || c == '_'
  }

  predicate NameChar(c: char) {
    Letter(c) || Digit(c) || c == '_'
  }

  predicate CharAt(s: string, i: nat, c: char) {
    i < |s| && s[i] == c
  }

  // ---------------------------------------------------------------------------
  // Skipping
  // ---------------------------------------------------------------------------

  function Equals(s: string, i: nat): (n: nat)
    requires i <= |s|
    ensures i + n <= |s|
    decreases |s| - i
  {
    if CharAt(s, i, '=') then 1 + Equals(s, i + 1) else 0
  }

  /** The level of the long bracket that opens here; -1 when none does. */
  function LongLevel(s: string, i: nat): (level: int)
    requires i <= |s|
    ensures level >= 0 ==> i + level + 2 <= |s|
  {
    if !CharAt(s, i, '[') then -1
    else
      var n := Equals(s, i + 1);
      if CharAt(s, i + 1 + n, '[') then n else -1
  }

  predicate LongEnds(s: string, i: nat, level: nat) {
    CharAt(s, i, ']') && Equals(s, i + 1) == level && CharAt(s, i + 1 + level, ']')
  }

  /** Past the closing bracket of this level; the end of the text when there is none. */
  function SkipLong(s: string, i: nat, level: nat): (r: nat)
    requires i <= |s|
    ensures i <= r <= |s|
    decreases |s| - i
  {
    if i == |s| then i
    else if LongEnds(s, i, level) then i + level + 2
    else SkipLong(s, i + 1, level)
  }

  /** Past the closing quote; at the end of the line or text when there is none. */
  function SkipQuoted(s: string, i: nat, quote: char): (r: nat)
    requires i <= |s|
    ensures i <= r <= |s|
    decreases |s| - i
  {
    if i == |s| then i
    else if s[i] == quote then i + 1
    else if s[i] == '\n' then i
    else if s[i] == '\\' && i + 1 < |s| then SkipQuoted(s, i + 2, quote)
    else SkipQuoted(s, i + 1, quote)
  }

  function LineEnd(s: string, i: nat): (r: nat)
    requires i <= |s|
    ensures i <= r <= |s| && (r < |s| ==> s[r] == '\n')
    decreases |s| - i
  {
    if i == |s| || s[i] == '\n' then i else LineEnd(s, i + 1)
  }

  function NameEnd(s: string, i: nat): (r: nat)
    requires i <= |s|
    ensures i <= r <= |s| && forall k :: i <= k < r ==> NameChar(s[k])
    decreases |s| - i
  {
    if i < |s| && NameChar(s[i]) then NameEnd(s, i + 1) else i
  }

  function NumberEnd(s: string, i: nat): (r: nat)
    requires i <= |s|
    ensures i <= r <= |s| && forall k :: i <= k < r ==> NameChar(s[k]) || s[k] == '.'
    decreases |s| - i
  {
    if i < |s| && (NameChar(s[i]) || s[i] == '.') then NumberEnd(s, i + 1) else i
  }

  function Blanks(s: string, i: nat): (r: nat)
    requires i <= |s|
    ensures i <= r <= |s| && forall k :: i <= k < r ==> s[k] == ' ' || s[k] == '\t'
    decreases |s| - i
  {
    if i < |s| && (s[i] == ' ' || s[i] == '\t') then Blanks(s, i + 1) else i
  }

  // ---------------------------------------------------------------------------
  // Tokens
  // ---------------------------------------------------------------------------

  datatype Kind = Newline | LineComment | LongComment | Quoted | LongString | Open | Close | Number | Word | Symbol

  function KindAt(s: string, i: nat): Kind
    requires i < |s|
  {
    var c := s[i];
    if c == '\n' then Newline
    else if c == '-' && CharAt(s, i + 1, '-') then
      if LongLevel(s, i + 2) >= 0 then LongComment else LineComment
    else if c == '/' && CharAt(s, i + 1, '/') then LineComment
    else if c == '"' || c == '\'' then Quoted
    else if LongLevel(s, i) >= 0 then LongString
    else if c == '(' || c == '[' || c == '{' then Open
    else if c == ')' || c == ']' || c == '}' then Close
    else if Digit(c) then Number
    else if NameStart(c) then Word
    else Symbol
  }

  /** Where the token that starts here ends. */
  function EndAt(s: string, i: nat): (r: nat)
    requires i < |s|
    ensures i < r <= |s|
  {
    match KindAt(s, i)
    case LineComment => LineEnd(s, i + 1)
    case LongComment => SkipLong(s, i + 2 + LongLevel(s, i + 2) + 2, LongLevel(s, i + 2))
    case Quoted => SkipQuoted(s, i + 1, s[i])
    case LongString => SkipLong(s, i + LongLevel(s, i) + 2, LongLevel(s, i))
    case Number => NumberEnd(s, i + 1)
    case Word => NameEnd(s, i + 1)
    case _ => i + 1
  }

  /** `x` is where a token starts or the text ends, reading from `i` on. */
  ghost predicate Boundary(s: string, i: nat, x: nat)
    requires i <= |s|
    decreases |s| - i
  {
    x == i || (i < x && i < |s| && Boundary(s, EndAt(s, i), x))
  }

  lemma {:induction false} BoundaryThen(s: string, i: nat, x: nat, y: nat)
    requires i <= |s| && x <= |s| && Boundary(s, i, x) && Boundary(s, x, y)
    ensures Boundary(s, i, y)
    decreases |s| - i
  {
    hide EndAt;
    if x != i {
      BoundaryThen(s, EndAt(s, i), x, y);
      BoundaryAfter(s, EndAt(s, i), x);
      BoundaryAfter(s, x, y);
    }
  }

  lemma {:induction false} BoundaryAfter(s: string, i: nat, x: nat)
    requires i <= |s| && Boundary(s, i, x)
    ensures i <= x <= |s|
    decreases |s| - i
  {
    hide EndAt;
    if x != i {
      BoundaryAfter(s, EndAt(s, i), x);
    }
  }

  lemma {:induction false} BlanksAreTokens(s: string, i: nat)
    requires i <= |s|
    ensures Boundary(s, i, Blanks(s, i))
    decreases |s| - i
  {
    if i < |s| && (s[i] == ' ' || s[i] == '\t') {
      assert KindAt(s, i) == Symbol;
      BlanksAreTokens(s, i + 1);
    }
  }

  // ---------------------------------------------------------------------------
  // The closing parenthesis
  // ---------------------------------------------------------------------------

  /** The parenthesis that brings `depth` to 0, searched character by character; only
      parentheses count. */
  function MatchParen(s: string, i: nat, depth: nat): (r: Option<nat>)
    requires i <= |s| && depth >= 1
    ensures r.Some? ==> i <= r.value < |s| && s[r.value] == ')'
    decreases |s| - i
  {
    if i == |s| then None
    else if (s[i] == '-' && CharAt(s, i + 1, '-')) || (s[i] == '/' && CharAt(s, i + 1, '/')) ||
            s[i] == '"' || s[i] == '\'' || LongLevel(s, i) >= 0 then
      MatchParen(s, EndAt(s, i), depth)
    else if s[i] == '(' then MatchParen(s, i + 1, depth + 1)
    else if s[i] == ')' then if depth == 1 then Some(i) else MatchParen(s, i + 1, depth - 1)
    else MatchParen(s, i + 1, depth)
  }

  predicate Plain(c: char) {
    NameChar(c) || c == '.'
  }

  lemma {:induction false} PlainRun(s: string, i: nat, e: nat, depth: nat)
    requires i <= e <= |s| && depth >= 1 && forall k :: i <= k < e ==> Plain(s[k])
    ensures MatchParen(s, i, depth) == MatchParen(s, e, depth)
    decreases e - i
  {
    hide EndAt;
    if i < e {
      PlainRun(s, i + 1, e, depth);
      assert Plain(s[i]);
    }
  }

  /** The search goes from token to token, `d` parentheses deep after this one. */
  lemma {:induction false} MatchStep(s: string, i: nat, depth: nat) returns (d: nat)
    requires i < |s| && depth >= 1
    ensures d == if s[i] == '(' then depth + 1 else if s[i] == ')' then depth - 1 else depth
    ensures d == 0 ==> KindAt(s, i).Close? && EndAt(s, i) == i + 1 && MatchParen(s, i, depth) == Some(i)
    ensures d > 0 ==> MatchParen(s, i, depth) == MatchParen(s, EndAt(s, i), d)
  {
    hide Equals, SkipLong, SkipQuoted, LineEnd, NameEnd, NumberEnd;
    d := if s[i] == '(' then depth + 1 else if s[i] == ')' then depth - 1 else depth;
    var e, k := EndAt(s, i), KindAt(s, i);
    if k.Number? || k.Word? {
      PlainRun(s, i, e, depth);
    }
  }

  /** The parenthesis found is a token of its own, not part of a string, comment, or name. */
  lemma {:induction false} MatchIsToken(s: string, i: nat, depth: nat)
    requires i <= |s| && depth >= 1 && MatchParen(s, i, depth).Some?
    ensures var x := MatchParen(s, i, depth).value; Boundary(s, i, x) && KindAt(s, x) == Close && Boundary(s, i, x + 1)
    decreases |s| - i
  {
    hide KindAt, EndAt, MatchParen;
    NoneAtEnd(s, depth);
    var d := MatchStep(s, i, depth);
    if d > 0 {
      MatchIsToken(s, EndAt(s, i), d);
    }
  }

  lemma {:induction false} NoneAtEnd(s: string, depth: nat)
    requires depth >= 1
    ensures MatchParen(s, |s|, depth).None?
  {}

  // ---------------------------------------------------------------------------
  // What follows a condition
  // ---------------------------------------------------------------------------

  /** The word `w` and no longer name. */
  predicate WordAt(s: string, i: nat, w: string)
    requires i <= |s|
  {
    w <= s[i..] && !(i + |w| < |s| && NameChar(s[i + |w|]))
  }

  /** What follows on the line starts a statement. */
  predicate BodyFollows(s: string, i: nat)
    requires i <= |s|
  {
    var p := Blanks(s, i);
    if p == |s| || s[p] == '\n' || s[p] == '\r' then false
    else if CharAt(s, p, '-') && CharAt(s, p + 1, '-') then false
    else if CharAt(s, p, '/') && CharAt(s, p + 1, '/') then false
    else if NameStart(s[p]) then
      !WordAt(s, p, "then") && !WordAt(s, p, "do") && !WordAt(s, p, "and") && !WordAt(s, p, "or")
    else s[p] == '?' || s[p] == ';'
  }

  // ---------------------------------------------------------------------------
  // The scanning loops
  // ---------------------------------------------------------------------------

  method LongBracketLevel(s: string, i: nat) returns (level: int)
    requires i <= |s|
    ensures level == LongLevel(s, i)
  {
    if i == |s| || s[i] != '[' {
      return -1;
    }
    var n := 0;
    while i + 1 + n < |s| && s[i + 1 + n] == '='
      invariant i + 1 + n <= |s| && Equals(s, i + 1) == n + Equals(s, i + 1 + n)
    {
      n := n + 1;
    }
    level := if CharAt(s, i + 1 + n, '[') then n else -1;
  }

  method SkipLongBody(s: string, i: nat, level: nat) returns (p: nat)
    requires i <= |s|
    ensures p == SkipLong(s, i, level)
  {
    hide LongEnds;
    p := i;
    while p < |s|
      invariant i <= p <= |s| && SkipLong(s, i, level) == SkipLong(s, p, level)
    {
      if s[p] == ']' {
        var n := 0;
        while p + 1 + n < |s| && s[p + 1 + n] == '='
          invariant p + 1 + n <= |s| && Equals(s, p + 1) == n + Equals(s, p + 1 + n)
        {
          n := n + 1;
        }
        LongEndsHere(s, p, level);
        if n == level && CharAt(s, p + 1 + n, ']') {
          return p + level + 2;
        }
      }
      LongEndsHere(s, p, level);
      p := p + 1;
    }
  }

  lemma {:induction false} LongEndsHere(s: string, i: nat, level: nat)
    requires i <= |s|
    ensures LongEnds(s, i, level) <==>
            CharAt(s, i, ']') && Equals(s, i + 1) == level && CharAt(s, i + 1 + level, ']')
  {}

  method SkipQuotedBody(s: string, i: nat, quote: char) returns (p: nat)
    requires i <= |s|
    ensures p == SkipQuoted(s, i, quote)
  {
    p := i;
    while p < |s| && s[p] != quote && s[p] != '\n'
      invariant i <= p <= |s| && SkipQuoted(s, i, quote) == SkipQuoted(s, p, quote)
    {
      if s[p] == '\\' && p + 1 < |s| {
        p := p + 1;
      }
      p := p + 1;
    }
    if p < |s| && s[p] == quote {
      p := p + 1;
    }
  }

  method FindParen(s: string, i: nat) returns (r: Option<nat>)
    requires i <= |s|
    ensures r == MatchParen(s, i, 1)
  {
    hide EndAt, LongLevel;
    var p, depth := i, 1;
    while p < |s|
      invariant i <= p <= |s| && depth >= 1 && MatchParen(s, i, 1) == MatchParen(s, p, depth)
      decreases |s| - p
    {
      var level := LongBracketLevel(s, p);
      if (s[p] == '-' && CharAt(s, p + 1, '-')) || (s[p] == '/' && CharAt(s, p + 1, '/')) ||
         s[p] == '"' || s[p] == '\'' || level >= 0 {
        p := SkipToken(s, p);
      } else {
        if s[p] == '(' {
          depth := depth + 1;
        } else if s[p] == ')' {
          depth := depth - 1;
          if depth == 0 {
            return Some(p);
          }
        }
        p := p + 1;
      }
    }
    return None;
  }

  method SkipLine(s: string, i: nat) returns (p: nat)
    requires i <= |s|
    ensures p == LineEnd(s, i)
  {
    p := i;
    while p < |s| && s[p] != '\n'
      invariant i <= p <= |s| && LineEnd(s, i) == LineEnd(s, p)
    {
      p := p + 1;
    }
  }

  method SkipNumber(s: string, i: nat) returns (p: nat)
    requires i <= |s|
    ensures p == NumberEnd(s, i)
  {
    p := i;
    while p < |s| && (NameChar(s[p]) || s[p] == '.')
      invariant i <= p <= |s| && NumberEnd(s, i) == NumberEnd(s, p)
    {
      p := p + 1;
    }
  }

  method SkipName(s: string, i: nat) returns (p: nat)
    requires i <= |s|
    ensures p == NameEnd(s, i)
  {
    p := i;
    while p < |s| && NameChar(s[p])
      invariant i <= p <= |s| && NameEnd(s, i) == NameEnd(s, p)
    {
      p := p + 1;
    }
  }

  /** The end of a token, skipped the way its kind is. */
  method SkipToken(s: string, i: nat) returns (p: nat)
    requires i < |s|
    ensures p == EndAt(s, i)
  {
    hide Equals, SkipLong, SkipQuoted, LineEnd, NumberEnd, NameEnd;
    match KindAt(s, i)
    case LineComment =>
      p := SkipLine(s, i + 1);
    case LongComment =>
      var level := LongBracketLevel(s, i + 2);
      p := SkipLongBody(s, i + 2 + level + 2, level);
    case Quoted =>
      p := SkipQuotedBody(s, i + 1, s[i]);
    case LongString =>
      var level := LongBracketLevel(s, i);
      p := SkipLongBody(s, i + level + 2, level);
    case Number =>
      p := SkipNumber(s, i + 1);
    case Word =>
      p := SkipName(s, i + 1);
    case _ =>
      p := i + 1;
  }
}
