/** What the shorthand rewriter inserts: where, how many, and in which order. */
module Pico8Balance {
  import opened Options
  import opened Pico8Lex
  import opened Pico8Scan

  // ---------------------------------------------------------------------------
  // Tokens that are not finished where they end
  // ---------------------------------------------------------------------------

  predicate QuoteClosed(s: string, i: nat, quote: char)
    requires i <= |s|
    decreases |s| - i
  {
    if i == |s| then false
    else if s[i] == quote then true
    else if s[i] == '\n' then false
    else if s[i] == '\\' && i + 1 < |s| then QuoteClosed(s, i + 2, quote)
    else QuoteClosed(s, i + 1, quote)
  }

  predicate LongClosed(s: string, i: nat, level: nat)
    requires i <= |s|
    decreases |s| - i
  {
    i < |s| && (LongEnds(s, i, level) || LongClosed(s, i + 1, level))
  }

  /** Text put directly after this token would still be part of it. */
  predicate Unfinished(s: string, t: nat)
    requires t < |s|
  {
    match KindAt(s, t)
    case LineComment => true
    case LongComment => !LongClosed(s, t + 2 + LongLevel(s, t + 2) + 2, LongLevel(s, t + 2))
    case LongString => !LongClosed(s, t + LongLevel(s, t) + 2, LongLevel(s, t))
    case Quoted => !QuoteClosed(s, t + 1, s[t])
    case _ => false
  }

  /** Text put at `x` becomes part of a string, a comment, or another token. */
  ghost predicate Inside(s: string, x: nat) {
    exists t :: 0 <= t < x && t < |s| && Boundary(s, 0, t) &&
      (x < EndAt(s, t) || (x == EndAt(s, t) && Unfinished(s, t)))
  }

  lemma {:induction false} UnclosedQuote(s: string, i: nat, quote: char)
    requires i <= |s| && !QuoteClosed(s, i, quote)
    ensures var e := SkipQuoted(s, i, quote); e == |s| || s[e] == '\n'
    decreases |s| - i
  {
    if i < |s| && s[i] != quote && s[i] != '\n' {
      UnclosedQuote(s, if s[i] == '\\' && i + 1 < |s| then i + 2 else i + 1, quote);
    }
  }

  lemma {:induction false} UnclosedLong(s: string, i: nat, level: nat)
    requires i <= |s| && !LongClosed(s, i, level)
    ensures SkipLong(s, i, level) == |s|
    decreases |s| - i
  {
    hide LongEnds;
    if i < |s| {
      UnclosedLong(s, i + 1, level);
    }
  }

  /** An unfinished token ends at the end of a line or of the text. */
  lemma {:induction false} UnfinishedEnds(s: string, t: nat)
    requires t < |s| && Unfinished(s, t)
    ensures var e, k := EndAt(s, t), KindAt(s, t);
            e == |s| || (s[e] == '\n' && (k.LineComment? || k.Quoted?))
  {
    hide LongLevel, SkipLong, SkipQuoted, LongClosed, QuoteClosed, LineEnd;
    match KindAt(s, t)
    case LongComment => UnclosedLong(s, t + 2 + LongLevel(s, t + 2) + 2, LongLevel(s, t + 2));
    case LongString => UnclosedLong(s, t + LongLevel(s, t) + 2, LongLevel(s, t));
    case Quoted => UnclosedQuote(s, t + 1, s[t]);
    case _ =>
  }

  /** Two tokens do not overlap. */
  lemma {:induction false} TokensApart(s: string, i: nat, t: nat, x: nat)
    requires i <= |s| && Boundary(s, i, t) && Boundary(s, i, x) && t < x && t < |s|
    ensures EndAt(s, t) <= x && Boundary(s, EndAt(s, t), x)
    decreases |s| - i
  {
    hide EndAt;
    if i == t {
      BoundaryAfter(s, EndAt(s, t), x);
    } else {
      BoundaryAfter(s, EndAt(s, i), t);
      TokensApart(s, EndAt(s, i), t, x);
    }
  }

  /** At most one token ends at a position. */
  lemma {:induction false} LastToken(s: string, t: nat, u: nat)
    requires t < |s| && u < |s| && Boundary(s, 0, t) && Boundary(s, 0, u) && EndAt(s, t) == EndAt(s, u)
    ensures t == u
  {
    hide EndAt;
    if t < u {
      TokensApart(s, 0, t, u);
    } else if u < t {
      TokensApart(s, 0, u, t);
    }
  }

  lemma {:induction false} NextBoundary(s: string, t: nat)
    requires t < |s| && Boundary(s, 0, t)
    ensures Boundary(s, 0, EndAt(s, t))
  {
    hide EndAt;
    BoundaryThen(s, 0, t, EndAt(s, t));
  }

  // ---------------------------------------------------------------------------
  // Where pieces go
  // ---------------------------------------------------------------------------

  /** A piece goes between two tokens; when the one before is not finished it is a quoted
      string cut off by the end of the line. */
  ghost predicate Placed(s: string, i: Insert) {
    && i.pos <= |s| && Boundary(s, 0, i.pos) && (Opener(i.text) || Ender(i.text))
    && (forall t :: 0 <= t < |s| && Boundary(s, 0, t) && EndAt(s, t) == i.pos && Unfinished(s, t) ==>
          i.text == LINE_END && (KindAt(s, t).Quoted? || i.pos == |s|))
  }

  /** Where the `end`s of the line go. */
  ghost predicate LineMark(s: string, st: State) {
    && (st.eol.Some? ==> st.eol.value < st.p <= |s| && Boundary(s, 0, st.eol.value) && s[st.eol.value] in ['-', '/'])
    && (forall t :: 0 <= t < |s| && Boundary(s, 0, t) && EndAt(s, t) == st.p && KindAt(s, t).LineComment? ==>
          st.eol.Some?)
  }

  ghost predicate Sound(s: string, st: State) {
    && st.p <= |s| && Boundary(s, 0, st.p) && LineMark(s, st)
    && (forall k :: 0 <= k < |st.ins| ==> Placed(s, st.ins[k]))
  }

  lemma {:induction false} PlacedAtMark(s: string, x: nat, text: string)
    requires x < |s| && Boundary(s, 0, x) && s[x] != '\n' && (Opener(text) || Ender(text))
    ensures Placed(s, Insert(x, text))
  {
    forall t | 0 <= t < |s| && Boundary(s, 0, t) && EndAt(s, t) == x && Unfinished(s, t)
      ensures false
    {
      UnfinishedEnds(s, t);
    }
  }

  lemma {:induction false} PlacedAtLineEnd(s: string, st: State)
    requires st.p < |s| && Boundary(s, 0, st.p) && LineMark(s, st) && st.eol.None? && s[st.p] == '\n'
    ensures Placed(s, Insert(st.p, LINE_END))
  {
    hide EndAt;
    forall t | 0 <= t < |s| && Boundary(s, 0, t) && EndAt(s, t) == st.p && Unfinished(s, t)
      ensures KindAt(s, t).Quoted?
    {
      UnfinishedEnds(s, t);
    }
  }

  lemma {:induction false} PlacedAtEnd(s: string)
    requires Boundary(s, 0, |s|)
    ensures Placed(s, Insert(|s|, LINE_END))
  {}

  lemma {:induction false} PlacedAfterCondition(s: string, e: nat, text: string)
    requires e <= |s| && Boundary(s, 0, e) && ShorthandAt(s, e).Some? && Opener(text)
    ensures Placed(s, Insert(ShorthandAt(s, e).value + 1, text))
  {
    hide EndAt, MatchParen, BodyFollows, Blanks;
    var x := ShorthandAt(s, e).value;
    ConditionCloses(s, e);
    BoundaryThen(s, 0, e, x);
    BoundaryThen(s, 0, e, x + 1);
    OneCharTokens(s, x);
    forall t | 0 <= t < |s| && Boundary(s, 0, t) && EndAt(s, t) == x + 1 && Unfinished(s, t)
      ensures false
    {
      LastToken(s, t, x);
    }
  }

  lemma {:induction false} ConditionCloses(s: string, e: nat)
    requires e <= |s| && ShorthandAt(s, e).Some?
    ensures var x := ShorthandAt(s, e).value; Boundary(s, e, x) && KindAt(s, x).Close? && Boundary(s, e, x + 1)
  {
    hide MatchParen, BodyFollows;
    var q := Blanks(s, e);
    BlanksAreTokens(s, e);
    assert KindAt(s, q).Open?;
    OneCharTokens(s, q);
    assert Boundary(s, q, q + 1);
    var x := ShorthandAt(s, e).value;
    MatchIsToken(s, q + 1, 1);
    BoundaryAfter(s, q + 1, x);
    BoundaryThen(s, e, q, q + 1);
    BoundaryThen(s, e, q + 1, x);
    BoundaryThen(s, e, q + 1, x + 1);
  }

  ghost predicate AllPlaced(s: string, ins: seq<Insert>) {
    forall k :: 0 <= k < |ins| ==> Placed(s, ins[k])
  }

  lemma {:induction false} CloseDonePlaced(s: string, st: State, at: nat, text: string)
    requires AllPlaced(s, st.ins) && Placed(s, Insert(at, text))
    ensures AllPlaced(s, CloseDone(st, at, text).ins)
    decreases |st.pend|
  {
    hide Placed;
    if TopDone(st) {
      CloseDonePlaced(s, st.(pend := st.pend[..|st.pend| - 1], ins := st.ins + [Insert(at, text)]), at, text);
    }
  }

  lemma {:induction false} CloseAllPlaced(s: string, st: State)
    requires AllPlaced(s, st.ins) && Boundary(s, 0, |s|)
    ensures AllPlaced(s, CloseAll(st, |s|).ins)
    decreases |st.pend|
  {
    hide Placed;
    PlacedAtEnd(s);
    if |st.pend| > 0 {
      CloseAllPlaced(s, st.(pend := st.pend[..|st.pend| - 1], ins := st.ins + [Insert(|s|, LINE_END)]));
    }
  }

  lemma {:induction false} WordPlaced(s: string, st: State, e: nat)
    requires Sound(s, st) && st.p < |s| && KindAt(s, st.p).Word? && e == EndAt(s, st.p)
    ensures AllPlaced(s, WordStep(s, st, st.p, e).ins)
  {
    hide Placed, EndAt, CloseDone, ShorthandAt, TopDone;
    NextBoundary(s, st.p);
    PlacedAtMark(s, st.p, WORD_END);
    CloseDonePlaced(s, st.(p := e), st.p, WORD_END);
    if ShorthandAt(s, e).Some? {
      PlacedAfterCondition(s, e, THEN);
      PlacedAfterCondition(s, e, DO);
    }
  }

  lemma {:induction false} NewlinePlaced(s: string, st: State)
    requires Sound(s, st) && st.p < |s| && s[st.p] == '\n'
    ensures AllPlaced(s, NewlineStep(st).ins)
  {
    hide Placed, CloseDone, Boundary;
    if st.eol.Some? {
      PlacedAtMark(s, st.eol.value, LINE_END);
    } else {
      PlacedAtLineEnd(s, st);
    }
    CloseDonePlaced(s, st, if st.eol.Some? then st.eol.value else st.p, LINE_END);
  }

  lemma {:induction false} StepPlaced(s: string, st: State)
    requires Sound(s, st) && st.p < |s|
    ensures AllPlaced(s, Step(s, st).ins)
  {
    hide Placed, EndAt, WordStep, NewlineStep, Blanks, LineMark;
    match KindAt(s, st.p)
    case Newline => NewlinePlaced(s, st);
    case Word => WordPlaced(s, st, EndAt(s, st.p));
    case _ =>
  }

  /** The line mark after a step. */
  lemma {:induction false} StepEol(s: string, st: State)
    requires st.p < |s|
    ensures var k, eol := KindAt(s, st.p), Step(s, st).eol;
            && (k.LineComment? ==> eol.Some?)
            && (eol.Some? ==> eol == st.eol || (eol == Some(st.p) && (k.LineComment? || k.LongComment?)))
  {
    hide EndAt, CloseDone, ShorthandAt, Blanks, TopDone;
    CloseDoneKeeps(st.(p := EndAt(s, st.p)), st.p, WORD_END);
  }

  lemma {:induction false} StepSound(s: string, st: State)
    requires Sound(s, st) && st.p < |s|
    ensures Sound(s, Step(s, st))
  {
    hide Placed, EndAt, Step;
    var r := Step(s, st);
    StepPlaced(s, st);
    StepAdvances(s, st);
    StepEol(s, st);
    NextBoundary(s, st.p);
    forall t | 0 <= t < |s| && Boundary(s, 0, t) && EndAt(s, t) == r.p && KindAt(s, t).LineComment?
      ensures r.eol.Some?
    {
      LastToken(s, t, st.p);
    }
  }

  lemma {:induction false} ScanSound(s: string, st: State)
    requires Sound(s, st)
    ensures AllPlaced(s, Scan(s, st).ins)
    decreases |s| - st.p
  {
    hide Placed, Step, CloseAll, EndAt;
    if st.p == |s| {
      CloseAllPlaced(s, st);
    } else {
      StepAdvances(s, st);
      StepSound(s, st);
      ScanSound(s, Step(s, st));
    }
  }

  /** The token a piece would become part of. */
  lemma {:induction false} CutToken(s: string, i: Insert) returns (t: nat)
    requires Placed(s, i) && Inside(s, i.pos)
    ensures t < i.pos && t < |s| && Boundary(s, 0, t) && EndAt(s, t) == i.pos && Unfinished(s, t)
  {
    hide EndAt, Unfinished;
    t :| 0 <= t < i.pos && t < |s| && Boundary(s, 0, t) &&
      (i.pos < EndAt(s, t) || (i.pos == EndAt(s, t) && Unfinished(s, t)));
    TokensApart(s, 0, t, i.pos);
  }

  /** Every string and long bracket is closed, and the text does not end in a line comment. */
  ghost predicate Complete(s: string) {
    forall t :: 0 <= t < |s| && Boundary(s, 0, t) && Unfinished(s, t) ==> KindAt(s, t).LineComment? && EndAt(s, t) < |s|
  }

  /** In such a text no piece ends up in a string or a comment. */
  lemma {:induction false} NeverInsideWhenComplete(s: string, k: nat)
    requires Complete(s) && k < |Scan(s, START).ins|
    ensures !Inside(s, Scan(s, START).ins[k].pos)
  {
    hide Scan, EndAt, Unfinished, Inside;
    ScanSound(s, START);
    if Inside(s, Scan(s, START).ins[k].pos) {
      var t := CutToken(s, Scan(s, START).ins[k]);
    }
  }

  // ---------------------------------------------------------------------------
  // Exactly when a piece ends up in a string or comment
  // ---------------------------------------------------------------------------

  /** The token that ends at `x` is not finished. */
  ghost predicate OpenAt(s: string, x: nat) {
    exists t :: 0 <= t < |s| && Boundary(s, 0, t) && EndAt(s, t) == x && Unfinished(s, t)
  }

  /** A body is finished at the end of a line whose last token is a string without its closing
      quote. */
  ghost predicate StepCuts(s: string, st: State)
    requires st.p < |s|
  {
    s[st.p] == '\n' && TopDone(st) && st.eol.None? && OpenAt(s, st.p)
  }

  /** That happens somewhere, or the text ends in an unfinished token while a body is pending. */
  ghost predicate ScanCuts(s: string, st: State)
    requires st.p <= |s|
    decreases |s| - st.p
  {
    if st.p == |s| then |st.pend| > 0 && OpenAt(s, |s|)
    else StepCuts(s, st) || (StepAdvances(s, st); ScanCuts(s, Step(s, st)))
  }

  ghost predicate SomeInside(s: string, ins: seq<Insert>, from: nat) {
    exists k :: from <= k < |ins| && Inside(s, ins[k].pos)
  }

  lemma {:induction false} InsideIsOpen(s: string, x: nat)
    requires x <= |s| && Boundary(s, 0, x)
    ensures Inside(s, x) <==> OpenAt(s, x)
  {
    hide EndAt, Unfinished;
    if Inside(s, x) {
      var t :| 0 <= t < x && t < |s| && Boundary(s, 0, t) &&
        (x < EndAt(s, t) || (x == EndAt(s, t) && Unfinished(s, t)));
      TokensApart(s, 0, t, x);
    }
  }

  lemma {:induction false} CloseDoneAt(st: State, at: nat, text: string)
    ensures var ins := CloseDone(st, at, text).ins;
            st.ins <= ins && (|ins| > |st.ins| <==> TopDone(st)) && forall k :: |st.ins| <= k < |ins| ==>
              ins[k].pos == at
    decreases |st.pend|
  {
    if TopDone(st) {
      CloseDoneAt(st.(pend := st.pend[..|st.pend| - 1], ins := st.ins + [Insert(at, text)]), at, text);
    }
  }

  lemma {:induction false} CloseAllAt(st: State, at: nat)
    ensures var ins := CloseAll(st, at).ins;
            st.ins <= ins && |ins| == |st.ins| + |st.pend| && forall k :: |st.ins| <= k < |ins| ==> ins[k].pos == at
    decreases |st.pend|
  {
    if |st.pend| > 0 {
      CloseAllAt(st.(pend := st.pend[..|st.pend| - 1], ins := st.ins + [Insert(at, LINE_END)]), at);
    }
  }

  lemma {:induction false} NotOpenAtMark(s: string, x: nat)
    requires x < |s| && s[x] != '\n'
    ensures !OpenAt(s, x)
  {
    forall t | 0 <= t < |s| && Boundary(s, 0, t) && EndAt(s, t) == x && Unfinished(s, t)
      ensures false
    {
      UnfinishedEnds(s, t);
    }
  }

  lemma {:induction false} NewlineCuts(s: string, st: State)
    requires Sound(s, st) && st.p < |s| && s[st.p] == '\n'
    ensures st.ins <= NewlineStep(st).ins
    ensures SomeInside(s, NewlineStep(st).ins, |st.ins|) <==> StepCuts(s, st)
  {
    hide Placed, CloseDone, Boundary, Inside, OpenAt, TopDone;
    var at := if st.eol.Some? then st.eol.value else st.p;
    CloseDoneAt(st, at, LINE_END);
    InsideIsOpen(s, at);
    if st.eol.Some? {
      NotOpenAtMark(s, at);
    }
    var ins := NewlineStep(st).ins;
    if |ins| > |st.ins| {
      assert ins[|st.ins|].pos == at;
    }
  }

  lemma {:induction false} WordCutsNothing(s: string, st: State, e: nat)
    requires Sound(s, st) && st.p < |s| && KindAt(s, st.p).Word? && e == EndAt(s, st.p)
    ensures st.ins <= WordStep(s, st, st.p, e).ins && !SomeInside(s, WordStep(s, st, st.p, e).ins, |st.ins|)
  {
    hide Placed, EndAt, CloseDone, ShorthandAt, TopDone, Inside, OpenAt;
    NextBoundary(s, st.p);
    CloseDoneAt(st.(p := e), st.p, WORD_END);
    InsideIsOpen(s, st.p);
    NotOpenAtMark(s, st.p);
    if ShorthandAt(s, e).Some? {
      NotOpenAfterCondition(s, e);
    }
  }

  lemma {:induction false} NotOpenAfterCondition(s: string, e: nat)
    requires e <= |s| && Boundary(s, 0, e) && ShorthandAt(s, e).Some?
    ensures !Inside(s, ShorthandAt(s, e).value + 1)
  {
    hide EndAt, ShorthandAt, Inside;
    PlacedAfterCondition(s, e, THEN);
    if Inside(s, ShorthandAt(s, e).value + 1) {
      var t := CutToken(s, Insert(ShorthandAt(s, e).value + 1, THEN));
    }
  }

  lemma {:induction false} StepCutsExact(s: string, st: State)
    requires Sound(s, st) && st.p < |s|
    ensures st.ins <= Step(s, st).ins && (SomeInside(s, Step(s, st).ins, |st.ins|) <==> StepCuts(s, st))
  {
    hide Placed, EndAt, WordStep, NewlineStep, Blanks, LineMark, Inside, OpenAt, TopDone;
    match KindAt(s, st.p)
    case Newline => NewlineCuts(s, st);
    case Word => WordCutsNothing(s, st, EndAt(s, st.p));
    case _ =>
  }

  lemma {:induction false} ScanCutsFrom(s: string, st: State)
    requires Sound(s, st)
    ensures st.ins <= Scan(s, st).ins && (SomeInside(s, Scan(s, st).ins, |st.ins|) <==> ScanCuts(s, st))
    decreases |s| - st.p
  {
    hide Placed, Step, CloseAll, EndAt, StepCuts, Inside, OpenAt, LineMark;
    if st.p == |s| {
      CloseAllAt(st, |s|);
      InsideIsOpen(s, |s|);
      var ins := CloseAll(st, |s|).ins;
      if |st.pend| > 0 {
        assert ins[|st.ins|].pos == |s|;
      }
    } else {
      StepAdvances(s, st);
      StepSound(s, st);
      StepCutsExact(s, st);
      var r := Step(s, st);
      ScanCutsFrom(s, r);
      InsideParts(s, st.ins, r.ins, Scan(s, st).ins);
    }
  }

  lemma {:induction false} InsideParts(s: string, a: seq<Insert>, b: seq<Insert>, c: seq<Insert>)
    requires a <= b <= c
    ensures SomeInside(s, c, |a|) <==> SomeInside(s, b, |a|) || SomeInside(s, c, |b|)
  {
    hide Inside;
    if SomeInside(s, b, |a|) {
      var k :| |a| <= k < |b| && Inside(s, b[k].pos);
      assert Inside(s, c[k].pos);
    }
    if SomeInside(s, c, |a|) {
      var k :| |a| <= k < |c| && Inside(s, c[k].pos);
      assert k < |b| ==> Inside(s, b[k].pos);
    }
  }

  /** Some piece ends up in a string or comment exactly when a body is finished at the end of a
      line that breaks off a string, or is still pending when the text ends in an unfinished
      token. */
  lemma {:induction false} InsideExactlyWhenCut(s: string)
    ensures (exists k :: 0 <= k < |Scan(s, START).ins| && Inside(s, Scan(s, START).ins[k].pos)) <==> ScanCuts(s, START)
  {
    hide Scan, ScanCuts, Inside, Unfinished;
    ScanCutsFrom(s, START);
  }

  /** In a text of whole lines only a quoted string or a long bracket that is not closed can
      swallow a piece, and the piece is the `end` of a line. */
  lemma {:induction false} OnlyUnclosedSwallows(s: string, k: nat) returns (t: nat)
    requires s == "" || s[|s| - 1] == '\n'
    requires k < |Scan(s, START).ins| && Inside(s, Scan(s, START).ins[k].pos)
    ensures t < |s| && Boundary(s, 0, t) && Unfinished(s, t) && EndAt(s, t) == Scan(s, START).ins[k].pos
    ensures !KindAt(s, t).LineComment? && Scan(s, START).ins[k].text == LINE_END
  {
    hide Scan, Unfinished, Inside, EndAt;
    ScanSound(s, START);
    t := CutToken(s, Scan(s, START).ins[k]);
    if KindAt(s, t).LineComment? {
      CommentEnds(s, t);
    }
  }

  /** A line comment ends before the last line end. */
  lemma {:induction false} CommentEnds(s: string, t: nat)
    requires t < |s| && KindAt(s, t).LineComment? && s[|s| - 1] == '\n'
    ensures EndAt(s, t) < |s|
  {
    hide LineEnd, LongLevel;
    CommentStops(s, t + 1);
  }

  lemma {:induction false} CommentStops(s: string, i: nat)
    requires i < |s| && s[|s| - 1] == '\n'
    ensures LineEnd(s, i) < |s|
    decreases |s| - i
  {
    if s[i] != '\n' {
      CommentStops(s, i + 1);
    }
  }
}
