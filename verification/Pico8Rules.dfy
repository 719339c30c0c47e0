/** The rules of the shorthand rewriter: which `if` and `while` get which text where, how deep
    the scan counts, and which bodies end where. They are stated on the text and its tokens. */
module Pico8Rules {
  import opened Options
  import opened Pico8Lex
  import opened Pico8Tokens
  import opened Pico8Scan
  import opened Pico8Shorthand
  import opened Pico8Balance
  import opened Pico8Rewrite

  // ---------------------------------------------------------------------------
  // What follows
  // ---------------------------------------------------------------------------

  /** `q` is the first place from `p` on that is no space or tab. */
  ghost predicate NextAt(s: string, p: nat, q: nat) {
    && p <= q <= |s| && (forall k :: p <= k < q ==> s[k] in {' ', '\t'})
    && (q < |s| ==> s[q] !in {' ', '\t'})
  }

  lemma {:induction false} BlanksIs(s: string, p: nat, q: nat)
    requires p <= |s|
    ensures NextAt(s, p, q) <==> q == Blanks(s, p)
    decreases |s| - p
  {
    if p < |s| && (s[p] == ' ' || s[p] == '\t') {
      BlanksIs(s, p + 1, q);
    }
  }

  /** On the same line there follows a name other than `then`, `do`, `and` and `or`, a question
      mark or a semicolon. */
  ghost predicate StartsBody(s: string, p: nat) {
    exists q: nat :: NextAt(s, p, q) && BodyAt(s, q)
  }

  ghost predicate BodyAt(s: string, q: nat) {
    q < |s| && (s[q] in {'?', ';'} ||
                (KindAt(s, q).Word? && s[q..EndAt(s, q)] !in {"then", "do", "and", "or"}))
  }

  lemma {:induction false} WordAtIs(s: string, p: nat, w: string)
    requires p < |s| && KindAt(s, p).Word? && |w| > 0 && forall k :: 0 <= k < |w| ==> NameChar(w[k])
    ensures WordAt(s, p, w) <==> s[p..EndAt(s, p)] == w
  {
    hide KindAt, EndAt;
    EndExact(s, p);
    KindExact(s, p);
    var e := EndAt(s, p);
    assert RunEndsAt(s, p + 1, e, false);
    if WordAt(s, p, w) {
      assert forall k :: 0 <= k < |w| ==> s[p..][k] == w[k];
      assert forall k :: p <= k < p + |w| ==> s[k] == w[k - p] && NameChar(s[k]);
      assert e == p + |w|;
    }
    if s[p..e] == w {
      assert s[p..][..|w|] == w;
    }
  }

  lemma {:induction false} StartsBodyIs(s: string, p: nat)
    requires p <= |s|
    ensures StartsBody(s, p) <==> BodyFollows(s, p)
  {
    hide EndAt, WordAt, Blanks, NextAt;
    var q := Blanks(s, p);
    BlanksIs(s, p, q);
    forall r: nat
      ensures NextAt(s, p, r) ==> r == q
    {
      BlanksIs(s, p, r);
    }
    if q < |s| && NameStart(s[q]) {
      NameIsWord(s, q);
      WordAtIs(s, q, "then");
      WordAtIs(s, q, "do");
      WordAtIs(s, q, "and");
      WordAtIs(s, q, "or");
    }
  }

  lemma {:induction false} NameIsWord(s: string, q: nat)
    requires q < |s|
    ensures KindAt(s, q).Word? <==> NameStart(s[q])
  {
    hide KindAt, OpensLong;
    KindExact(s, q);
    TwoStart(s, q, "--");
    TwoStart(s, q, "//");
    if s[q] != '[' {
      assert !OpensLong(s, q) by {
        NotLong(s, q);
      }
    }
  }

  lemma {:induction false} NotLong(s: string, q: nat)
    requires q < |s| && s[q] != '['
    ensures !OpensLong(s, q)
  {}

  // ---------------------------------------------------------------------------
  // Conditions
  // ---------------------------------------------------------------------------

  /** Opening minus closing parentheses among the tokens from `a` up to `b`. */
  ghost function Depth(s: string, a: nat, b: nat): int
    requires a <= |s|
    decreases |s| - a
  {
    if a >= b || a == |s| then 0
    else (if s[a] == '(' then 1 else if s[a] == ')' then -1 else 0) + Depth(s, EndAt(s, a), b)
  }

  /** `x` closes the parentheses open at `i`, `depth` of them, for the first time. */
  ghost predicate ClosesAt(s: string, i: nat, depth: nat, x: nat)
    requires i <= |s|
  {
    && i <= x < |s| && s[x] == ')' && Boundary(s, i, x) && depth + Depth(s, i, x) == 1
    && forall y: nat :: i <= y <= x && Boundary(s, i, y) ==> depth + Depth(s, i, y) >= 1
  }

  /** The parenthesis at `q` is closed by the one at `x`. */
  ghost predicate Matches(s: string, q: nat, x: nat) {
    q < |s| && s[q] == '(' && ClosesAt(s, q + 1, 1, x)
  }

  lemma {:induction false} ClosesStep(s: string, i: nat, depth: nat, x: nat)
    requires i < x && i < |s| && depth >= 1
    ensures var d := depth + if s[i] == '(' then 1 else if s[i] == ')' then -1 else 0;
            ClosesAt(s, i, depth, x) <==> d >= 1 && ClosesAt(s, EndAt(s, i), d, x)
  {
    hide EndAt, Boundary;
    var e := EndAt(s, i);
    var d := depth + if s[i] == '(' then 1 else if s[i] == ')' then -1 else 0;
    forall y: nat
      ensures Boundary(s, i, y) <==> y == i || Boundary(s, e, y)
      ensures Boundary(s, e, y) ==> e <= y
      ensures Boundary(s, e, y) ==> depth + Depth(s, i, y) == d + Depth(s, e, y)
    {
      BoundaryStep(s, i, y);
    }
    if ClosesAt(s, i, depth, x) {
      assert Boundary(s, e, e) by {
        BoundaryHere(s, e);
      }
      assert e <= x;
      assert depth + Depth(s, i, e) >= 1;
    }
  }

  lemma {:induction false} BoundaryHere(s: string, e: nat)
    requires e <= |s|
    ensures Boundary(s, e, e) && Depth(s, e, e) == 0
  {}

  lemma {:induction false} BoundaryStep(s: string, i: nat, y: nat)
    requires i < |s|
    ensures Boundary(s, i, y) <==> y == i || Boundary(s, EndAt(s, i), y)
    ensures Boundary(s, EndAt(s, i), y) ==> EndAt(s, i) <= y
  {
    hide EndAt;
    if Boundary(s, EndAt(s, i), y) {
      BoundaryAfter(s, EndAt(s, i), y);
    }
  }

  /** The search finds the first place where the parentheses are closed. */
  lemma {:induction false} MatchExact(s: string, i: nat, depth: nat, x: nat)
    requires i <= |s| && depth >= 1
    ensures MatchParen(s, i, depth) == Some(x) <==> ClosesAt(s, i, depth, x)
    decreases |s| - i
  {
    hide MatchParen, KindAt, EndAt, ClosesAt;
    if i == |s| {
      NoneAtEnd(s, depth);
      NothingCloses(s, depth, x);
    } else {
      var d := MatchStep(s, i, depth);
      if x > i {
        ClosesStep(s, i, depth, x);
        if d > 0 {
          MatchExact(s, EndAt(s, i), d, x);
        }
      } else {
        ClosesHere(s, i, depth, x);
        if d > 0 {
          MatchAfter(s, EndAt(s, i), d);
        }
      }
    }
  }

  lemma {:induction false} NothingCloses(s: string, depth: nat, x: nat)
    ensures !ClosesAt(s, |s|, depth, x)
  {}

  lemma {:induction false} ClosesHere(s: string, i: nat, depth: nat, x: nat)
    requires i < |s| && x <= i && depth >= 1
    ensures ClosesAt(s, i, depth, x) <==> x == i && s[i] == ')' && depth == 1
  {
    BoundaryHere(s, i);
  }

  lemma {:induction false} MatchAfter(s: string, i: nat, depth: nat)
    requires i <= |s| && depth >= 1
    ensures MatchParen(s, i, depth).Some? ==> MatchParen(s, i, depth).value >= i
  {}

  /** After position `e` there follows a condition in parentheses, closed at `x`, and then a
      body on the same line. */
  ghost predicate IsShorthand(s: string, e: nat, x: nat) {
    exists q: nat :: NextAt(s, e, q) && Matches(s, q, x) && StartsBody(s, x + 1)
  }

  lemma {:induction false} ShorthandExact(s: string, e: nat, x: nat)
    requires e <= |s|
    ensures IsShorthand(s, e, x) <==> ShorthandAt(s, e) == Some(x)
  {
    hide MatchParen, BodyFollows, StartsBody, ClosesAt, Blanks, NextAt;
    var q := Blanks(s, e);
    forall r: nat
      ensures NextAt(s, e, r) <==> r == q
    {
      BlanksIs(s, e, r);
    }
    assert IsShorthand(s, e, x) <==> Matches(s, q, x) && StartsBody(s, x + 1);
    if q < |s| && s[q] == '(' {
      MatchExact(s, q + 1, 1, x);
      if x < |s| {
        StartsBodyIs(s, x + 1);
      } else {
        InText(s, q + 1, x);
      }
    }
  }

  lemma {:induction false} InText(s: string, i: nat, x: nat)
    requires i <= |s| && x >= |s|
    ensures !ClosesAt(s, i, 1, x)
  {}

  // ---------------------------------------------------------------------------
  // What one step inserts and counts
  // ---------------------------------------------------------------------------

  /** A word that is no field or method name. */
  ghost predicate WordHere(s: string, w: nat, words: set<string>) {
    && w < |s| && KindAt(s, w).Word? && s[w..EndAt(s, w)] in words
    && (w > 0 ==> s[w - 1] !in {'.', ':'})
  }

  /** `r` is `st` with the innermost pending bodies closed that were opened at the depth of
      `st`, all of them and no others, an `end` for each. */
  ghost predicate ClosedDone(st: State, r: State, at: nat, text: string) {
    exists n: nat :: n <= |st.pend| && ClosedSome(st, r, at, text, n)
  }

  ghost predicate ClosedSome(st: State, r: State, at: nat, text: string, n: nat)
    requires n <= |st.pend|
  {
    var left := |st.pend| - n;
    && r.pend == st.pend[..left] && r.ins == st.ins + seq(n, _ => Insert(at, text))
    && (forall k :: left <= k < |st.pend| ==> st.pend[k].blocks == st.blocks && st.pend[k].parens == st.parens)
    && (left > 0 ==> st.pend[left - 1].blocks != st.blocks || st.pend[left - 1].parens != st.parens)
  }

  lemma {:induction false} CloseDoneIs(st: State, at: nat, text: string)
    ensures ClosedDone(st, CloseDone(st, at, text), at, text)
    decreases |st.pend|
  {
    if TopDone(st) {
      var m := |st.pend| - 1;
      var next := st.(pend := st.pend[..m], ins := st.ins + [Insert(at, text)]);
      CloseDoneIs(next, at, text);
      var r := CloseDone(next, at, text);
      var n: nat :| n <= |next.pend| && ClosedSome(next, r, at, text, n);
      assert st.ins + [Insert(at, text)] + seq(n, _ => Insert(at, text)) == st.ins + seq(n + 1, _ => Insert(at, text));
      assert next.pend[..m - n] == st.pend[..m - n];
      assert ClosedSome(st, r, at, text, n + 1);
    } else {
      assert st.pend[..|st.pend|] == st.pend && st.ins + seq(0, _ => Insert(at, text)) == st.ins;
      assert ClosedSome(st, st, at, text, 0);
    }
  }

  lemma {:induction false} SameClosed(a: State, r: State, b: State, t: State, at: nat, text: string)
    requires ClosedDone(a, r, at, text) && a.pend == b.pend && a.ins == b.ins && r.pend == t.pend && r.ins == t.ins
    requires a.blocks == b.blocks && a.parens == b.parens
    ensures ClosedDone(b, t, at, text)
  {
    var n: nat :| n <= |a.pend| && ClosedSome(a, r, at, text, n);
    assert ClosedSome(b, t, at, text, n);
  }

  /** What a step inserts: `then` or `do` after the condition of a shorthand; `end` at the end of
      a line, before its comment, or before an `end` or `until`; nothing else. */
  lemma {:induction false} StepInserts(s: string, st: State)
    requires st.p < |s|
    ensures var r, e := Step(s, st), EndAt(s, st.p);
            if s[st.p] == '\n' then ClosedDone(st, r, if st.eol.Some? then st.eol.value else st.p, " end")
            else if WordHere(s, st.p, {"end", "until"}) then ClosedDone(st, r, st.p, "end ")
            else if WordHere(s, st.p, {"if", "while"}) && ShorthandAt(s, e).Some? then
              var x := ShorthandAt(s, e).value;
              && r.ins == st.ins + [Insert(x + 1, if s[st.p..e] == "if" then " then " else " do ")]
              && r.pend == st.pend + [Pending(st.blocks, st.parens, x + 1)]
            else r.ins == st.ins && r.pend == st.pend
  {
    hide EndAt, ShorthandAt, CloseDone, Blanks, KindAt, ClosedDone;
    var e := EndAt(s, st.p);
    KindExact(s, st.p);
    if s[st.p] == '\n' {
      var at := if st.eol.Some? then st.eol.value else st.p;
      CloseDoneIs(st, at, " end");
      SameClosed(st, CloseDone(st, at, " end"), st, Step(s, st), at, " end");
    } else if WordHere(s, st.p, {"end", "until"}) {
      CloseDoneIs(st.(p := e), st.p, "end ");
      SameClosed(st.(p := e), CloseDone(st.(p := e), st.p, "end "), st, Step(s, st), st.p, "end ");
    }
  }

  /** How deep a step leaves the scan: brackets of all kinds; blocks, which `for`, `function`,
      `repeat`, full `if` and `while` and a `do` of its own open and `end` and `until` close; and
      the loops whose `do` is still to come. */
  lemma {:induction false} StepCounts(s: string, st: State)
    requires st.p < |s|
    ensures var r, p, c := Step(s, st), st.p, s[st.p];
            var short := ShorthandAt(s, EndAt(s, p)).Some?;
            && r.p == EndAt(s, p)
            && r.parens == (if KindAt(s, p).Open? then st.parens + 1
                            else if KindAt(s, p).Close? && st.parens > 0 then st.parens - 1 else st.parens)
            && r.blocks == (if WordHere(s, p, {"for", "function", "repeat"}) then st.blocks + 1
                            else if WordHere(s, p, {"if", "while"}) && !short then st.blocks + 1
                            else if WordHere(s, p, {"do"}) && st.loopDo == 0 then st.blocks + 1
                            else if WordHere(s, p, {"end", "until"}) && st.blocks > 0 then st.blocks - 1
                            else st.blocks)
            && r.loopDo == (if WordHere(s, p, {"for"}) || (WordHere(s, p, {"while"}) && !short) then st.loopDo + 1
                            else if WordHere(s, p, {"do"}) && st.loopDo > 0 then st.loopDo - 1
                            else st.loopDo)
  {
    hide EndAt, ShorthandAt, CloseDone, Blanks, KindAt, TopDone;
    StepAdvances(s, st);
    CloseDoneKeeps(st, if st.eol.Some? then st.eol.value else st.p, LINE_END);
    CloseDoneKeeps(st.(p := EndAt(s, st.p)), st.p, WORD_END);
  }

  /** Where the `end`s of a line go: before the comment that ends it, if there is one. A long
      comment with more text after it on its line does not end the line. */
  lemma {:induction false} StepMarks(s: string, st: State)
    requires st.p < |s|
    ensures var r, k, e := Step(s, st), KindAt(s, st.p), EndAt(s, st.p);
            var first := if st.eol.Some? then st.eol else Some(st.p);
            && (k.Newline? ==> r.eol == None)
            && (k.LineComment? ==> r.eol == first)
            && (k.LongComment? ==>
                  forall q: nat :: NextAt(s, e, q) ==> r.eol == if q < |s| && s[q] != '\n' then None else first)
            && (!k.Newline? && !k.LineComment? && !k.LongComment? ==> r.eol == st.eol)
  {
    hide EndAt, ShorthandAt, CloseDone, Blanks, KindAt, TopDone, NextAt;
    CloseDoneKeeps(st.(p := EndAt(s, st.p)), st.p, WORD_END);
    forall q: nat
      ensures NextAt(s, EndAt(s, st.p), q) ==> q == Blanks(s, EndAt(s, st.p))
    {
      BlanksIs(s, EndAt(s, st.p), q);
    }
  }

  /** At the end of the text every body still pending is closed there. */
  lemma {:induction false} LastInserts(s: string, st: State)
    requires st.p == |s|
    ensures Scan(s, st).ins == st.ins + seq(|st.pend|, _ => Insert(|s|, " end")) && |Scan(s, st).pend| == 0
  {
    CloseAllIs(st, |s|);
  }

  lemma {:induction false} CloseAllIs(st: State, at: nat)
    ensures var r := CloseAll(st, at);
            r.ins == st.ins + seq(|st.pend|, _ => Insert(at, " end")) && |r.pend| == 0
    decreases |st.pend|
  {
    var m := |st.pend|;
    if m > 0 {
      var next := st.(pend := st.pend[..m - 1], ins := st.ins + [Insert(at, " end")]);
      CloseAllIs(next, at);
      assert st.ins + [Insert(at, " end")] + seq(m - 1, _ => Insert(at, " end"))
          == st.ins + seq(m, _ => Insert(at, " end"));
    } else {
      assert st.ins + seq(0, _ => Insert(at, " end")) == st.ins;
    }
  }

  // ---------------------------------------------------------------------------
  // The whole text
  // ---------------------------------------------------------------------------

  /** The word at `w` is a shorthand whose condition ends at `x`. */
  ghost predicate ShorthandWord(s: string, w: nat, x: nat) {
    Boundary(s, 0, w) && WordHere(s, w, {"if", "while"}) && IsShorthand(s, EndAt(s, w), x)
  }

  ghost function OpenerAt(s: string, w: nat, x: nat): Insert
    requires w < |s|
  {
    Insert(x + 1, if s[w..EndAt(s, w)] == "if" then " then " else " do ")
  }

  ghost predicate IsOpener(i: Insert) {
    i.text in {" then ", " do "}
  }

  /** The openers among the pieces from index `from` on are those of shorthands from `p` on. */
  ghost predicate OpenersFit(s: string, ins: seq<Insert>, from: nat, p: nat) {
    forall k :: from <= k < |ins| && IsOpener(ins[k]) ==> FromShorthand(s, ins[k], p)
  }

  ghost predicate FromShorthand(s: string, i: Insert, p: nat) {
    exists w: nat, x: nat :: p <= w < |s| && ShorthandWord(s, w, x) && i == OpenerAt(s, w, x)
  }

  ghost predicate OpenersThere(s: string, ins: seq<Insert>, p: nat, to: nat) {
    forall w: nat, x: nat :: p <= w < to && ShorthandWord(s, w, x) ==> OpenerAt(s, w, x) in ins
  }

  lemma {:induction false} StepOpensFor(s: string, st: State)
    requires st.p < |s| && Boundary(s, 0, st.p)
    ensures st.ins <= Step(s, st).ins
    ensures OpenersFit(s, Step(s, st).ins, |st.ins|, st.p)
    ensures forall x: nat :: ShorthandWord(s, st.p, x) ==> OpenerAt(s, st.p, x) in Step(s, st).ins
  {
    hide EndAt, ShorthandAt, Step, KindAt, ClosedDone, IsShorthand;
    var r, e := Step(s, st), EndAt(s, st.p);
    StepInserts(s, st);
    forall x: nat
      ensures IsShorthand(s, e, x) <==> ShorthandAt(s, e) == Some(x)
    {
      ShorthandExact(s, e, x);
    }
    OneWordHere(s, st.p);
    if s[st.p] == '\n' {
      EndsOnly(st, r, if st.eol.Some? then st.eol.value else st.p, " end");
    } else if WordHere(s, st.p, {"end", "until"}) {
      EndsOnly(st, r, st.p, "end ");
    } else if WordHere(s, st.p, {"if", "while"}) && ShorthandAt(s, e).Some? {
      var x := ShorthandAt(s, e).value;
      assert r.ins[|st.ins|] == OpenerAt(s, st.p, x);
      assert FromShorthand(s, r.ins[|st.ins|], st.p);
    }
  }

  lemma {:induction false} OneWordHere(s: string, w: nat)
    requires w < |s|
    ensures s[w] == '\n' ==> !WordHere(s, w, {"if", "while"})
    ensures WordHere(s, w, {"end", "until"}) ==> !WordHere(s, w, {"if", "while"})
  {
    KindExact(s, w);
  }

  lemma {:induction false} EndsOnly(st: State, r: State, at: nat, text: string)
    requires ClosedDone(st, r, at, text) && text in {" end", "end "}
    ensures st.ins <= r.ins && forall k :: |st.ins| <= k < |r.ins| ==> !IsOpener(r.ins[k])
  {
    var n: nat :| n <= |st.pend| && ClosedSome(st, r, at, text, n);
    assert " end"[1] == 'e' && "end "[1] == 'n' && " then "[1] == 't' && " do "[1] == 'd';
  }

  lemma {:induction false} ScanOpensFor(s: string, st: State)
    requires st.p <= |s| && Boundary(s, 0, st.p)
    ensures st.ins <= Scan(s, st).ins
    ensures OpenersFit(s, Scan(s, st).ins, |st.ins|, st.p) && OpenersThere(s, Scan(s, st).ins, st.p, |s|)
    decreases |s| - st.p
  {
    hide Step, EndAt, CloseAll, ShorthandWord, FromShorthand, IsOpener;
    if st.p == |s| {
      LastInserts(s, st);
      LastNoOpener(|s|);
    } else {
      var r := Step(s, st);
      StepAdvances(s, st);
      NextBoundary(s, st.p);
      StepOpensFor(s, st);
      ScanOpensFor(s, r);
      FitTogether(s, st.ins, r.ins, Scan(s, r).ins, st.p, r.p);
      ThereTogether(s, r.ins, Scan(s, r).ins, st.p, r.p);
    }
  }

  lemma {:induction false} LastNoOpener(at: nat)
    ensures !IsOpener(Insert(at, " end"))
  {
    assert " end"[1] == 'e' && " then "[1] == 't' && " do "[1] == 'd';
  }

  lemma {:induction false} FitTogether(s: string, a: seq<Insert>, b: seq<Insert>, c: seq<Insert>, p: nat, q: nat)
    requires a <= b <= c && p <= q && OpenersFit(s, b, |a|, p) && OpenersFit(s, c, |b|, q)
    ensures OpenersFit(s, c, |a|, p)
  {
    hide ShorthandWord, IsOpener;
    forall k | |a| <= k < |c| && IsOpener(c[k])
      ensures FromShorthand(s, c[k], p)
    {
      if k < |b| {
        assert c[k] == b[k];
      }
    }
  }

  lemma {:induction false} ThereTogether(s: string, b: seq<Insert>, c: seq<Insert>, p: nat, q: nat)
    requires b <= c && p < |s| && Boundary(s, 0, p) && q == EndAt(s, p) && OpenersThere(s, c, q, |s|)
    requires forall x: nat :: ShorthandWord(s, p, x) ==> OpenerAt(s, p, x) in b
    ensures OpenersThere(s, c, p, |s|)
  {
    hide IsShorthand, EndAt, WordHere;
    forall w: nat, x: nat | p <= w < |s| && ShorthandWord(s, w, x)
      ensures OpenerAt(s, w, x) in c
    {
      if p < w {
        TokensApart(s, 0, p, w);
      }
    }
  }

  /** A `then` or `do` is inserted for every shorthand, and nothing else gets one. */
  lemma {:induction false} OpenersExact(s: string, i: Insert)
    requires IsOpener(i)
    ensures i in Scan(s, START).ins <==>
            exists w: nat, x: nat :: w < |s| && ShorthandWord(s, w, x) && i == OpenerAt(s, w, x)
  {
    hide Scan, ShorthandWord, IsOpener;
    ScanOpensFor(s, START);
    var ins := Scan(s, START).ins;
    if i in ins {
      var k :| 0 <= k < |ins| && ins[k] == i;
      assert FromShorthand(s, i, 0);
    }
    if w: nat, x: nat :| w < |s| && ShorthandWord(s, w, x) && i == OpenerAt(s, w, x) {
      assert OpenersThere(s, ins, 0, |s|);
    }
  }

  /** A text without a shorthand is left as it is. */
  lemma {:induction false} Unchanged(s: string)
    requires forall w: nat, x: nat :: !ShorthandWord(s, w, x)
    ensures Fits(s, 0, Inserted(s)) && Weave(s, 0, Inserted(s)) == s
  {
    hide Scan, ShorthandWord;
    NothingScanned(s, START);
    assert Sorted([]) == [];
    assert s[0..] == s;
  }

  lemma {:induction false} NothingScanned(s: string, st: State)
    requires st.p <= |s| && Boundary(s, 0, st.p) && st.ins == [] && st.pend == []
    requires forall w: nat, x: nat :: !ShorthandWord(s, w, x)
    ensures Scan(s, st).ins == []
    decreases |s| - st.p
  {
    hide Step, EndAt, ShorthandAt, KindAt, IsShorthand;
    if st.p < |s| {
      var e := EndAt(s, st.p);
      StepAdvances(s, st);
      NextBoundary(s, st.p);
      StepInserts(s, st);
      if ShorthandAt(s, e).Some? {
        ShorthandExact(s, e, ShorthandAt(s, e).value);
        assert !ShorthandWord(s, st.p, ShorthandAt(s, e).value);
      }
      NothingScanned(s, Step(s, st));
    }
  }
}
