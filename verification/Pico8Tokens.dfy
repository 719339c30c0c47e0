/** What the tokens of the shorthand rewriter are, character by character, and when an `if` or
    `while` is a shorthand: stated on the text, without the functions that read it. */
module Pico8Tokens {
  import opened Pico8Lex

  // ---------------------------------------------------------------------------
  // Kinds of tokens
  // ---------------------------------------------------------------------------

  ghost predicate Starts(s: string, i: nat, t: string) {
    i + |t| <= |s| && forall k :: 0 <= k < |t| ==> s[i + k] == t[k]
  }

  ghost predicate AllEquals(s: string, i: nat, n: nat) {
    i + n <= |s| && forall k :: i <= k < i + n ==> s[k] == '='
  }

  /** A bracket, `n` equals signs, and the same bracket again. */
  ghost predicate LongAt(s: string, i: nat, n: nat, bracket: char) {
    i + n + 1 < |s| && s[i] == bracket && AllEquals(s, i + 1, n) && s[i + 1 + n] == bracket
  }

  ghost predicate OpensLong(s: string, i: nat) {
    exists n: nat :: LongAt(s, i, n, '[')
  }

  ghost predicate IsLetter(c: char) {
    'a' <= c <= 'z' || 'A' <= c <= 'Z' || c == '_'
  }

  ghost predicate IsDigit(c: char) {
    '0' <= c <= '9'
  }

  lemma {:induction false} EqualsCount(s: string, i: nat, n: nat)
    requires i <= |s|
    ensures AllEquals(s, i, Equals(s, i))
    ensures AllEquals(s, i, n) && (i + n == |s| || s[i + n] != '=') ==> Equals(s, i) == n
    decreases |s| - i
  {
    if i < |s| && s[i] == '=' {
      EqualsCount(s, i + 1, if n > 0 then n - 1 else 0);
    }
  }

  lemma {:induction false} LongLevelIs(s: string, i: nat, n: nat)
    requires i <= |s|
    ensures LongAt(s, i, n, '[') <==> LongLevel(s, i) == n
  {
    hide Equals;
    if i < |s| {
      EqualsCount(s, i + 1, n);
    }
  }

  lemma {:induction false} LongLevelExact(s: string, i: nat)
    requires i <= |s|
    ensures OpensLong(s, i) <==> LongLevel(s, i) >= 0
  {
    hide LongLevel;
    if LongLevel(s, i) >= 0 {
      LongLevelIs(s, i, LongLevel(s, i));
    }
    forall n: nat
      ensures LongAt(s, i, n, '[') ==> LongLevel(s, i) >= 0
    {
      LongLevelIs(s, i, n);
    }
  }

  /** The kind of the token that starts at `i`, by its first characters. */
  lemma {:induction false} KindExact(s: string, i: nat)
    requires i < |s|
    ensures KindAt(s, i) ==
            if s[i] == '\n' then Newline
            else if Starts(s, i, "--") then (if OpensLong(s, i + 2) then LongComment else LineComment)
            else if Starts(s, i, "//") then LineComment
            else if s[i] in {'"', '\''} then Quoted
            else if OpensLong(s, i) then LongString
            else if s[i] in {'(', '[', '{'} then Open
            else if s[i] in {')', ']', '}'} then Close
            else if IsDigit(s[i]) then Number
            else if IsLetter(s[i]) then Word
            else Symbol
  {
    hide LongLevel, OpensLong;
    LongLevelExact(s, i);
    if i + 2 <= |s| {
      LongLevelExact(s, i + 2);
    }
    assert Starts(s, i, "--") <==> s[i] == '-' && CharAt(s, i + 1, '-') by {
      TwoStart(s, i, "--");
    }
    assert Starts(s, i, "//") <==> s[i] == '/' && CharAt(s, i + 1, '/') by {
      TwoStart(s, i, "//");
    }
  }

  lemma {:induction false} TwoStart(s: string, i: nat, t: string)
    requires |t| == 2
    ensures Starts(s, i, t) <==> i + 1 < |s| && s[i] == t[0] && s[i + 1] == t[1]
  {}

  // ---------------------------------------------------------------------------
  // Where tokens end
  // ---------------------------------------------------------------------------

  /** The first line end from `i` on, or the end of the text. */
  ghost predicate LineEndsAt(s: string, i: nat, e: nat) {
    i <= e <= |s| && (e == |s| || s[e] == '\n') && forall k :: i <= k < e ==> s[k] != '\n'
  }

  /** Past the first closing bracket of level `n` from `i` on, or the end of the text. */
  ghost predicate LongEndsAt(s: string, i: nat, n: nat, e: nat) {
    && i <= e <= |s|
    && (if e >= i + n + 2 && LongAt(s, e - n - 2, n, ']') then forall k :: i <= k < e - n - 2 ==> !LongAt(s, k, n, ']')
        else e == |s| && forall k :: i <= k < |s| ==> !LongAt(s, k, n, ']'))
  }

  /** A long bracket opens at `i` and the text in it ends at `e`. */
  ghost predicate LongFrom(s: string, i: nat, e: nat) {
    exists n: nat :: LongAt(s, i, n, '[') && LongEndsAt(s, i + n + 2, n, e)
  }

  /** From `i` to `m` there is neither the quote nor a line end, except after a backslash. */
  ghost predicate Inner(s: string, i: nat, m: nat, quote: char)
    decreases m - i
  {
    i == m || (i < m <= |s| && s[i] != quote && s[i] != '\n' &&
               Inner(s, if s[i] == '\\' && i + 1 < |s| then i + 2 else i + 1, m, quote))
  }

  /** Past the closing quote, or at the end of the line or text. */
  ghost predicate QuoteEndsAt(s: string, i: nat, quote: char, e: nat) {
    && i <= e <= |s|
    && ((e > i && s[e - 1] == quote && Inner(s, i, e - 1, quote)) ||
        ((e == |s| || s[e] == '\n') && Inner(s, i, e, quote)))
  }

  lemma {:induction false} LineEndIs(s: string, i: nat)
    requires i <= |s|
    ensures LineEndsAt(s, i, LineEnd(s, i))
    decreases |s| - i
  {
    if i < |s| && s[i] != '\n' {
      LineEndIs(s, i + 1);
    }
  }

  lemma {:induction false} LongEndsIs(s: string, i: nat, n: nat)
    ensures LongEnds(s, i, n) <==> LongAt(s, i, n, ']')
  {
    hide Equals;
    if i < |s| {
      EqualsCount(s, i + 1, n);
    }
  }

  lemma {:induction false} SkipLongIs(s: string, i: nat, n: nat)
    requires i <= |s|
    ensures LongEndsAt(s, i, n, SkipLong(s, i, n))
    decreases |s| - i
  {
    hide LongAt, LongEnds;
    if i < |s| {
      LongEndsIs(s, i, n);
      if !LongEnds(s, i, n) {
        SkipLongIs(s, i + 1, n);
        LongLater(s, i, n, SkipLong(s, i + 1, n));
      } else {
        LongEndsFit(s, i, n);
      }
    }
  }

  lemma {:induction false} LongEndsFit(s: string, i: nat, n: nat)
    requires LongAt(s, i, n, ']')
    ensures i + n + 2 <= |s|
  {}

  lemma {:induction false} LongLater(s: string, i: nat, n: nat, e: nat)
    requires LongEndsAt(s, i + 1, n, e) && !LongAt(s, i, n, ']')
    ensures LongEndsAt(s, i, n, e)
  {
    hide LongAt;
    if e == i + n + 2 {
      assert e - n - 2 == i;
    }
  }

  lemma {:induction false} SkipQuotedIs(s: string, i: nat, quote: char)
    requires i <= |s| && quote != '\n'
    ensures QuoteEndsAt(s, i, quote, SkipQuoted(s, i, quote))
    decreases |s| - i
  {
    if i < |s| && s[i] != quote && s[i] != '\n' {
      SkipQuotedIs(s, if s[i] == '\\' && i + 1 < |s| then i + 2 else i + 1, quote);
    }
  }

  /** All of one kind up to `e`, and not the next. */
  ghost predicate RunEndsAt(s: string, i: nat, e: nat, dots: bool) {
    && i <= e <= |s| && (forall k :: i <= k < e ==> IsLetter(s[k]) || IsDigit(s[k]) || (dots && s[k] == '.'))
    && (e < |s| ==> !(IsLetter(s[e]) || IsDigit(s[e]) || (dots && s[e] == '.')))
  }

  lemma {:induction false} NameEndIs(s: string, i: nat)
    requires i <= |s|
    ensures RunEndsAt(s, i, NameEnd(s, i), false)
    decreases |s| - i
  {
    if i < |s| && NameChar(s[i]) {
      NameEndIs(s, i + 1);
    }
  }

  lemma {:induction false} NumberEndIs(s: string, i: nat)
    requires i <= |s|
    ensures RunEndsAt(s, i, NumberEnd(s, i), true)
    decreases |s| - i
  {
    if i < |s| && (NameChar(s[i]) || s[i] == '.') {
      NumberEndIs(s, i + 1);
    }
  }

  /** Where a token ends, by its kind. */
  lemma {:induction false} EndExact(s: string, i: nat)
    requires i < |s|
    ensures var e := EndAt(s, i);
            match KindAt(s, i)
            case LineComment => LineEndsAt(s, i + 1, e)
            case LongComment => LongFrom(s, i + 2, e)
            case LongString => LongFrom(s, i, e)
            case Quoted => QuoteEndsAt(s, i + 1, s[i], e)
            case Number => RunEndsAt(s, i + 1, e, true)
            case Word => RunEndsAt(s, i + 1, e, false)
            case _ => e == i + 1
  {
    hide LongLevel, SkipLong, SkipQuoted, LineEnd, NameEnd, NumberEnd, LongAt, LongEndsAt, LineEndsAt, QuoteEndsAt;
    hide RunEndsAt;
    match KindAt(s, i)
    case LineComment => LineEndIs(s, i + 1);
    case LongComment =>
      var n := LongLevel(s, i + 2);
      LongLevelIs(s, i + 2, n);
      SkipLongIs(s, i + 2 + n + 2, n);
    case LongString =>
      var n := LongLevel(s, i);
      LongLevelIs(s, i, n);
      SkipLongIs(s, i + n + 2, n);
    case Quoted => SkipQuotedIs(s, i + 1, s[i]);
    case Number => NumberEndIs(s, i + 1);
    case Word => NameEndIs(s, i + 1);
    case _ =>
  }
}
