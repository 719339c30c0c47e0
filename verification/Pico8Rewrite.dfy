/** The rewriter as a whole, and what its output keeps of the source. */
module Pico8Rewrite {
  import opened Options
  import opened Pico8Lex
  import opened Pico8Scan
  import opened Pico8Shorthand
  import opened Pico8Balance
  import opened Pico8Pairs
  import opened Pico8Matching

  /** The pieces in the order in which they go into the text. */
  ghost function Inserted(src: string): seq<Insert> {
    Sorted(Scan(src, START).ins)
  }

  lemma {:induction false} PiecesFit(src: string)
    ensures Fits(src, 0, Inserted(src)) && Ascending(Inserted(src)) && OneLine(Inserted(src))
    ensures forall k :: 0 <= k < |Inserted(src)| ==> Placed(src, Inserted(src)[k])
  {
    hide Scan, Sorted, Placed;
    var ins := Scan(src, START).ins;
    StartSound(src);
    ScanSound(src, START);
    SortedAscends(ins);
    var l := Sorted(ins);
    forall k | 0 <= k < |l|
      ensures Placed(src, l[k])
    {
      assert l[k] in multiset(l) && l[k] in multiset(ins);
    }
    AscendingFits(src, 0, l);
    forall k | 0 <= k < |l|
      ensures Newlines(l[k].text) == 0
    {
      PieceOneLine(src, l[k]);
    }
  }

  lemma {:induction false} StartSound(src: string)
    ensures Sound(src, START)
  {
    hide Unfinished;
  }

  lemma {:induction false} PieceOneLine(src: string, i: Insert)
    requires Placed(src, i)
    ensures Newlines(i.text) == 0 && i.pos <= |src|
  {
    NoNewline(i.text);
  }

  lemma {:induction false} NoNewline(t: string)
    requires forall k :: 0 <= k < |t| ==> t[k] != '\n'
    ensures Newlines(t) == 0
  {
    if |t| > 0 {
      NoNewline(t[1..]);
    }
  }

  lemma {:induction false} AscendingFits(src: string, from: nat, l: seq<Insert>)
    requires from <= |src| && Ascending(l) && forall k :: 0 <= k < |l| ==> from <= l[k].pos && Placed(src, l[k])
    ensures Fits(src, from, l)
    decreases |l|
  {
    hide Placed;
    if |l| > 0 {
      assert Placed(src, l[0]);
      PieceOneLine(src, l[0]);
      AscendingFits(src, l[0].pos, l[1..]);
    }
  }

  /** The rewritten text. */
  method ExpandShorthand(src: string) returns (out: string)
    ensures Fits(src, 0, Inserted(src)) && out == Weave(src, 0, Inserted(src))
  {
    hide Scan, Sorted, Fits, Weave;
    var scanner := new Scanner(src);
    scanner.ScanAll();
    var ins := scanner.ins;
    var a := new Insert[|ins|](i requires 0 <= i < |ins| => ins[i]);
    assert a[..] == ins;
    SortInserts(a);
    PiecesFit(src);
    out := WeaveIn(src, a[..]);
  }

  /** The rewriting only inserts, on the same line: every character of the source is in the
      output with as many line ends before it. */
  lemma {:induction false} KeepsCharacters(src: string, k: nat)
    requires k < |src| && Fits(src, 0, Inserted(src))
    ensures var out, at := Weave(src, 0, Inserted(src)), Place(src, 0, Inserted(src), k);
            at < |out| && out[at] == src[k] && Newlines(out[..at]) == Newlines(src[..k])
    ensures Keep(Weave(src, 0, Inserted(src)), Marks(src, 0, Inserted(src)), false) == src
  {
    hide Inserted, Weave, Place, Marks, Keep;
    PiecesFit(src);
    CharacterKept(src, 0, Inserted(src), k);
    PureInsertion(src, 0, Inserted(src));
    assert src[0..k] == src[..k] && src[0..] == src;
  }

  // ---------------------------------------------------------------------------
  // Conditions that nest
  // ---------------------------------------------------------------------------

  /** Reading from `p`, `depth` brackets deep, no line ends, no word is read and no bracket
      closes outside all brackets before position `o`. */
  predicate Nests(s: string, p: nat, o: nat, depth: int)
    requires p <= |s|
    decreases |s| - p
  {
    p >= o || p == |s| ||
    var k := KindAt(s, p);
    (k.Newline? || k.Word? || k.Close? ==> depth >= 1) &&
    Nests(s, EndAt(s, p), o, if k.Open? then depth + 1 else if k.Close? then depth - 1 else depth)
  }

  /** The brackets of every shorthand's condition nest: those of all three kinds, counted
      together, are all closed only by the parenthesis that ends the condition. */
  ghost predicate ConditionsNest(s: string) {
    forall w :: 0 <= w < |s| && Boundary(s, 0, w) && KindAt(s, w).Word? && s[w..EndAt(s, w)] in ["if", "while"] &&
                ShorthandAt(s, EndAt(s, w)).Some? ==>
      Nests(s, EndAt(s, w), ShorthandAt(s, EndAt(s, w)).value + 1, 0)
  }

  /** Only blanks are left on the line. */
  predicate Quiet(s: string, p: nat)
    requires p <= |s|
  {
    Blanks(s, p) == |s| || s[Blanks(s, p)] == '\n'
  }

  /** A pending shorthand: its condition is being read, brackets open, or has been read before
      the place where the line's `end`s go. */
  ghost predicate Reading(s: string, st: State, p: Pending)
    requires st.p <= |s|
  {
    && 1 <= p.opener <= |s| && Boundary(s, 0, p.opener - 1) && KindAt(s, p.opener - 1).Close?
    && (p.opener > st.p ==> Nests(s, st.p, p.opener, st.parens - p.parens))
    && (p.opener <= st.p && st.eol.Some? ==> p.opener <= st.eol.value)
  }

  ghost predicate AllReading(s: string, st: State)
    requires st.p <= |s|
  {
    && (st.eol.Some? ==> st.eol.value <= st.p && Quiet(s, st.p))
    && forall k :: 0 <= k < |st.pend| ==> Reading(s, st, st.pend[k])
  }

  lemma {:induction false} NotTooEarly(s: string, st: State, pend: seq<Pending>, at: nat)
    requires st.p < |s| && pend <= st.pend && AllReading(s, st)
    requires KindAt(s, st.p).Newline? || KindAt(s, st.p).Word?
    requires at == st.p || st.eol == Some(at)
    ensures !TooEarly(st.(pend := pend), at)
    decreases |pend|
  {
    hide KindAt, EndAt, Boundary, Quiet;
    if TopDone(st.(pend := pend)) {
      var n := |pend| - 1;
      assert Reading(s, st, st.pend[n]) && pend[n] == st.pend[n];
      NotTooEarly(s, st, pend[..n], at);
    }
  }

  lemma {:induction false} QuietToken(s: string, p: nat)
    requires p < |s| && Quiet(s, p)
    ensures s[p] == ' ' || s[p] == '\t' || s[p] == '\n'
    ensures s[p] != '\n' ==> EndAt(s, p) == p + 1 && Quiet(s, p + 1) && KindAt(s, p).Symbol?
  {}

  lemma {:induction false} LineCommentQuiet(s: string, p: nat)
    requires p < |s| && KindAt(s, p).LineComment?
    ensures Quiet(s, EndAt(s, p))
  {}

  lemma {:induction false} StepQuiet(s: string, st: State)
    requires st.p < |s| && (st.eol.Some? ==> st.eol.value <= st.p && Quiet(s, st.p)) && Step(s, st).eol.Some?
    ensures Step(s, st).eol.value <= EndAt(s, st.p) && Quiet(s, EndAt(s, st.p))
  {
    hide EndAt, CloseDone, ShorthandAt, Blanks, TopDone, Quiet;
    StepEol(s, st);
    if KindAt(s, st.p).LineComment? {
      LineCommentQuiet(s, st.p);
    } else if KindAt(s, st.p).LongComment? {
      LongCommentQuiet(s, st);
    } else {
      assert !KindAt(s, st.p).Newline?;
      QuietToken(s, st.p);
    }
  }

  lemma {:induction false} LongCommentQuiet(s: string, st: State)
    requires st.p < |s| && KindAt(s, st.p).LongComment? && Step(s, st).eol.Some?
    ensures Quiet(s, EndAt(s, st.p))
  {
    hide EndAt, KindAt;
  }

  lemma {:induction false} ReadingOn(s: string, st: State, r: State, p: Pending)
    requires st.p < |s| && Boundary(s, 0, st.p) && Reading(s, st, p) && r.p == EndAt(s, st.p)
    requires st.eol.Some? ==> Quiet(s, st.p)
    requires r.eol.Some? ==> r.eol == st.eol || (r.eol == Some(st.p) && !KindAt(s, st.p).Close?)
    requires var k := KindAt(s, st.p);
             r.parens == if k.Open? then st.parens + 1 else if k.Close? then Down(st.parens) else st.parens
    ensures Reading(s, r, p)
  {
    hide EndAt, Quiet;
    if st.p < p.opener <= r.p {
      NextBoundary(s, p.opener - 1);
      OneCharTokens(s, p.opener - 1);
      TokensApart(s, 0, st.p, p.opener);
      LastToken(s, st.p, p.opener - 1);
      if st.eol.Some? {
        QuietToken(s, st.p);
      }
    }
  }

  lemma {:induction false} StepParens(s: string, st: State)
    requires st.p < |s|
    ensures var k := KindAt(s, st.p);
            Step(s, st).parens == if k.Open? then st.parens + 1 else if k.Close? then Down(st.parens) else st.parens
  {
    hide EndAt, CloseDone, ShorthandAt, Blanks, TopDone;
    CloseDoneKeeps(st, if st.eol.Some? then st.eol.value else st.p, LINE_END);
    CloseDoneKeeps(st.(p := EndAt(s, st.p)), st.p, WORD_END);
  }

  lemma {:induction false} CloseDonePrefix(st: State, at: nat, text: string)
    ensures CloseDone(st, at, text).pend <= st.pend
    decreases |st.pend|
  {
    if TopDone(st) {
      CloseDonePrefix(st.(pend := st.pend[..|st.pend| - 1], ins := st.ins + [Insert(at, text)]), at, text);
    }
  }

  /** What is pending after a step was pending before, or is the shorthand just read. */
  lemma {:induction false} StepPending(s: string, st: State, k: nat)
    requires st.p < |s| && k < |Step(s, st).pend|
    ensures var p, e := Step(s, st).pend[k], EndAt(s, st.p);
            p in st.pend ||
            (KindAt(s, st.p).Word? && s[st.p..e] in ["if", "while"] && ShorthandAt(s, e).Some? &&
             p == Pending(st.blocks, st.parens, ShorthandAt(s, e).value + 1))
  {
    hide EndAt, CloseDone, ShorthandAt, Blanks, TopDone;
    CloseDonePrefix(st, if st.eol.Some? then st.eol.value else st.p, LINE_END);
    CloseDonePrefix(st.(p := EndAt(s, st.p)), st.p, WORD_END);
  }

  lemma {:induction false} StepReading(s: string, st: State)
    requires st.p < |s| && Boundary(s, 0, st.p) && AllReading(s, st) && ConditionsNest(s)
    ensures Step(s, st).p <= |s| && AllReading(s, Step(s, st))
  {
    hide EndAt, Step, Quiet, Reading, ShorthandAt;
    var r := Step(s, st);
    StepAdvances(s, st);
    StepEol(s, st);
    StepParens(s, st);
    if r.eol.Some? {
      StepQuiet(s, st);
    }
    forall k | 0 <= k < |r.pend|
      ensures Reading(s, r, r.pend[k])
    {
      StepPending(s, st, k);
      if r.pend[k] in st.pend {
        ReadingOn(s, st, r, r.pend[k]);
      } else {
        NewReading(s, st, r, r.pend[k]);
      }
    }
  }

  lemma {:induction false} NewReading(s: string, st: State, r: State, p: Pending)
    requires st.p < |s| && Boundary(s, 0, st.p) && ConditionsNest(s) && r.p == EndAt(s, st.p) && r.parens == st.parens
    requires KindAt(s, st.p).Word? && s[st.p..EndAt(s, st.p)] in ["if", "while"] && ShorthandAt(s, EndAt(s, st.p)).Some?
    requires p == Pending(st.blocks, st.parens, ShorthandAt(s, EndAt(s, st.p)).value + 1)
    ensures Reading(s, r, p)
  {
    hide EndAt, ShorthandAt, Nests;
    NextBoundary(s, st.p);
    ConditionCloses(s, r.p);
    BoundaryThen(s, 0, r.p, p.opener - 1);
  }

  lemma {:induction false} StepInTime(s: string, st: State)
    requires st.p < |s| && AllReading(s, st)
    ensures !StepTooEarly(s, st)
  {
    hide KindAt, EndAt, Reading, Quiet, TooEarly;
    if KindAt(s, st.p).Newline? {
      NotTooEarly(s, st, st.pend, if st.eol.Some? then st.eol.value else st.p);
    } else if KindAt(s, st.p).Word? {
      NotTooEarly(s, st, st.pend, st.p);
    }
  }

  lemma {:induction false} ScanInTime(s: string, st: State)
    requires st.p <= |s| && Boundary(s, 0, st.p) && AllReading(s, st) && ConditionsNest(s)
    ensures !ScanTooEarly(s, st)
    decreases |s| - st.p
  {
    hide Step, EndAt, StepTooEarly, AllReading, ConditionsNest;
    if st.p < |s| {
      StepAdvances(s, st);
      NextBoundary(s, st.p);
      StepReading(s, st);
      StepInTime(s, st);
      ScanInTime(s, Step(s, st));
    }
  }

  // ---------------------------------------------------------------------------
  // Balance
  // ---------------------------------------------------------------------------

  /** As many `end`s are inserted as `then`s and `do`s, whatever the source. */
  lemma {:induction false} Balanced(src: string)
    ensures Total(Inserted(src)) == 0
  {
    hide Scan, Sorted;
    EndsMatchOpeners(src, START);
    SortedTotal(Scan(src, START).ins);
  }

  lemma {:induction false} SortedTotal(l: seq<Insert>)
    ensures Total(Sorted(l)) == Total(l)
  {
    if |l| > 0 {
      SortedTotal(l[..|l| - 1]);
      InsertTotal(Sorted(l[..|l| - 1]), l[|l| - 1]);
    }
  }

  lemma {:induction false} InsertTotal(l: seq<Insert>, t: Insert)
    ensures Total(InsertInto(l, t)) == Total(l) + Weight(t)
  {
    if |l| == 0 || l[|l| - 1].pos <= t.pos {
      NetMore(l, t, 0);
    } else {
      InsertTotal(l[..|l| - 1], t);
      NetMore(InsertInto(l[..|l| - 1], t), l[|l| - 1], 0);
    }
  }

  /** Every inserted `end` belongs to one inserted `then` or `do`, and every such opener has its
      `end`. In the output each `end` comes after its own opener exactly when the scan never
      closes a body whose condition it is still reading. `Rank` is the place of a recorded piece
      in the order of insertion. */
  lemma {:induction false} EndsFollowOpeners(src: string)
    ensures var ins := Scan(src, START).ins;
            && EndsPaired(ins) && |Unclosed(ins)| == 0
            && (forall k :: 0 <= k < |ins| ==> Inserted(src)[Rank(ins, k)] == ins[k])
            && (AllFollow(ins) <==> !ScanTooEarly(src, START))
  {
    hide Scan, Sorted, Rank, ScanTooEarly, SomeEarly, Unclosed;
    var ins := Scan(src, START).ins;
    NothingLinked(|src|);
    ScanLinked(src, START);
    EarlyOrFollow(ins);
    forall k | 0 <= k < |ins|
      ensures Inserted(src)[Rank(ins, k)] == ins[k]
    {
      RankFinds(ins, k);
    }
  }

  /** Each `end` comes after its own opener once the pieces are sorted. */
  ghost predicate AllFollow(ins: seq<Insert>) {
    forall j :: 0 <= j < |ins| && Closes(ins, j) ==> Rank(ins, Own(ins, j)) < Rank(ins, j)
  }

  lemma {:induction false} NothingLinked(n: nat)
    ensures Linked(START) && OpenersIn(START, n) && |START.ins| == 0
  {}

  lemma {:induction false} EarlyOrFollow(ins: seq<Insert>)
    ensures AllFollow(ins) <==> !SomeEarly(ins, 0)
  {
    hide Rank, Closes, Own;
    forall j | 0 <= j < |ins| && Closes(ins, j)
      ensures Rank(ins, Own(ins, j)) < Rank(ins, j) <==> ins[Own(ins, j)].pos <= ins[j].pos
    {
      RankOrder(ins, Own(ins, j), j);
    }
  }

  /** Every beginning of the output has at least as many inserted `then`s and `do`s as `end`s. */
  ghost predicate OpenFirst(l: seq<Insert>) {
    forall n: nat :: n <= |l| ==> Total(l[..n]) >= 0
  }

  /** Up to every position of the source at least as many openers have been put as `end`s. */
  ghost predicate NeverBehind(ins: seq<Insert>) {
    forall x: int :: Net(ins, x) >= 0
  }

  /** The first is so exactly when the second is. */
  lemma {:induction false} PrefixesExact(src: string)
    ensures OpenFirst(Inserted(src)) <==> NeverBehind(Scan(src, START).ins)
  {
    hide Scan, Sorted, Net, Total, OpenersFirst, Placed;
    var ins, l := Scan(src, START).ins, Inserted(src);
    ScanOrdered(src, START);
    SortedOpenersFirst(ins, |src|);
    PiecesFit(src);
    forall x: int
      ensures Net(l, x) == Net(ins, x)
    {
      SortedNet(ins, x);
    }
    forall k | 0 <= k < |l|
      ensures Opener(l[k].text) || Ender(l[k].text)
    {
      PlacedText(src, l[k]);
    }
    if NeverBehind(ins) {
      forall n: nat | n <= |l|
        ensures Total(l[..n]) >= 0
      {
        PrefixesBalanced(l, n);
      }
    }
    if OpenFirst(l) {
      forall x: int
        ensures Net(ins, x) >= 0
      {
        var n := NetIsPrefix(l, x);
      }
    }
  }

  /** That is so when nothing is closed too early. */
  lemma {:induction false} PrefixesOpenFirst(src: string, n: nat)
    requires !ScanTooEarly(src, START) && n <= |Inserted(src)|
    ensures Total(Inserted(src)[..n]) >= 0
  {
    hide Scan, Sorted, Net, Total;
    NothingCovered();
    ScanCovered(src, START);
    PrefixesExact(src);
  }

  lemma {:induction false} NothingCovered()
    ensures Covered(START)
  {}

  lemma {:induction false} PlacedText(s: string, i: Insert)
    requires Placed(s, i)
    ensures Opener(i.text) || Ender(i.text)
  {}

  /** In particular when the conditions nest. */
  lemma {:induction false} PrefixesOpenFirstWhenNested(src: string, n: nat)
    requires ConditionsNest(src) && n <= |Inserted(src)|
    ensures Total(Inserted(src)[..n]) >= 0
  {
    hide ScanTooEarly, Inserted, ConditionsNest;
    ScanInTime(src, START);
    PrefixesOpenFirst(src, n);
  }

  // ---------------------------------------------------------------------------
  // Sources for which more cannot be said
  // ---------------------------------------------------------------------------

  lemma {:induction false} OneWord(s: string, i: nat)
    requires i < |s| && NameStart(s[i]) && !(i + 1 < |s| && NameChar(s[i + 1]))
    ensures KindAt(s, i).Word? && EndAt(s, i) == i + 1
  {}

  const IN_COMMENT := "if(a)b--[[\n"

  lemma {:induction false} CommentTokens(s: string)
    requires s == IN_COMMENT
    ensures KindAt(s, 0) == Word && EndAt(s, 0) == 2 && KindAt(s, 2) == Open && EndAt(s, 2) == 3
    ensures KindAt(s, 3) == Word && EndAt(s, 3) == 4 && KindAt(s, 4) == Close && EndAt(s, 4) == 5
    ensures KindAt(s, 5) == Word && EndAt(s, 5) == 6
  {
    assert NameEnd(s, 1) == 2 && NameEnd(s, 2) == 2;
    OneWord(s, 3);
    OneWord(s, 5);
  }

  lemma {:induction false} CommentOpen(s: string)
    requires s == IN_COMMENT
    ensures KindAt(s, 6) == LongComment && EndAt(s, 6) == 11 && Unfinished(s, 6)
  {
    assert Equals(s, 9) == 0 && LongLevel(s, 8) == 0;
    assert !LongClosed(s, 11, 0) && !LongClosed(s, 10, 0);
    UnclosedLong(s, 10, 0);
  }

  lemma {:induction false} CommentShorthand(s: string)
    requires s == IN_COMMENT
    ensures ShorthandAt(s, 2) == Some(4)
  {
    assert MatchParen(s, 4, 1) == Some(4);
    assert MatchParen(s, 3, 1) == Some(4);
    assert Blanks(s, 2) == 2 && Blanks(s, 5) == 5;
    assert BodyFollows(s, 5);
  }

  lemma {:induction false} CommentScan(s: string)
    requires s == IN_COMMENT
    ensures Scan(s, START) == CloseAll(State(11, 0, 0, 0, Some(6), [Pending(0, 0, 5)], [Insert(5, THEN)]), 11)
  {
    hide KindAt, EndAt, ShorthandAt, TopDone, CloseDone;
    CommentTokens(s);
    CommentOpen(s);
    CommentShorthand(s);
    assert s[0..2] == "if" && s[3..4] == "a" && s[5..6] == "b";
    var pend, ins := [Pending(0, 0, 5)], [Insert(5, THEN)];
    ScanFrom(s, [START, State(2, 0, 0, 0, None, pend, ins), State(3, 0, 1, 0, None, pend, ins),
                 State(4, 0, 1, 0, None, pend, ins), State(5, 0, 0, 0, None, pend, ins),
                 State(6, 0, 0, 0, None, pend, ins), State(11, 0, 0, 0, Some(6), pend, ins)]);
  }

  /** A text whose last comment is not closed: the `end` becomes part of the comment. */
  lemma {:induction false} EndInComment()
    ensures Scan(IN_COMMENT, START).ins == [Insert(5, THEN), Insert(11, LINE_END)] && Inside(IN_COMMENT, 11)
  {
    hide KindAt, EndAt, ShorthandAt, Scan, Unfinished;
    var s := IN_COMMENT;
    CommentTokens(s);
    CommentOpen(s);
    CommentScan(s);
    assert Boundary(s, 5, 6) && Boundary(s, 4, 6) && Boundary(s, 3, 6) && Boundary(s, 2, 6) && Boundary(s, 0, 6);
  }

  /** Following single steps to the end of the text. */
  lemma {:induction false} ScanFrom(s: string, states: seq<State>)
    requires |states| > 0 && states[|states| - 1].p == |s|
    requires forall i :: 0 <= i < |states| - 1 ==> states[i].p < |s| && Step(s, states[i]) == states[i + 1]
    ensures Scan(s, states[0]) == CloseAll(states[|states| - 1], |s|)
    decreases |states|
  {
    hide Step, CloseAll;
    if |states| > 1 {
      ScanFrom(s, states[1..]);
    }
  }

  const NOT_NESTED := "if(a]\n)b\n"

  lemma {:induction false} NotNestedTokens(s: string)
    requires s == NOT_NESTED
    ensures KindAt(s, 0) == Word && EndAt(s, 0) == 2 && KindAt(s, 2) == Open && EndAt(s, 2) == 3
    ensures KindAt(s, 3) == Word && EndAt(s, 3) == 4 && KindAt(s, 4) == Close && EndAt(s, 4) == 5
    ensures KindAt(s, 5) == Newline && EndAt(s, 5) == 6 && KindAt(s, 6) == Close && EndAt(s, 6) == 7
    ensures KindAt(s, 7) == Word && EndAt(s, 7) == 8 && KindAt(s, 8) == Newline && EndAt(s, 8) == 9
  {
    assert NameEnd(s, 1) == 2 && NameEnd(s, 2) == 2;
    OneWord(s, 3);
    OneWord(s, 7);
  }

  lemma {:induction false} NotNestedShorthand(s: string)
    requires s == NOT_NESTED
    ensures ShorthandAt(s, 2) == Some(6)
  {
    assert MatchParen(s, 6, 1) == Some(6);
    assert MatchParen(s, 5, 1) == Some(6);
    assert MatchParen(s, 4, 1) == Some(6);
    assert MatchParen(s, 3, 1) == Some(6);
    assert Blanks(s, 2) == 2 && Blanks(s, 7) == 7;
    assert BodyFollows(s, 7);
  }

  lemma {:induction false} NotNestedLine(st: State, both: seq<Insert>)
    requires st == State(5, 0, 0, 0, None, [Pending(0, 0, 7)], [Insert(7, THEN)])
    requires both == [Insert(7, THEN), Insert(5, LINE_END)]
    ensures NewlineStep(st) == State(6, 0, 0, 0, None, [], both)
  {
    var closed := State(5, 0, 0, 0, None, [], both);
    assert CloseDone(closed, 5, LINE_END) == closed;
    assert CloseDone(st, 5, LINE_END) == closed;
  }

  lemma {:induction false} IdleLine(st: State)
    requires |st.pend| == 0 && st.eol.None?
    ensures NewlineStep(st) == st.(p := st.p + 1)
  {}

  lemma {:induction false} NotNestedScan(s: string, both: seq<Insert>)
    requires s == NOT_NESTED && both == [Insert(7, THEN), Insert(5, LINE_END)]
    ensures Scan(s, START).ins == both
  {
    hide KindAt, EndAt, ShorthandAt, TopDone, CloseDone, NewlineStep;
    NotNestedTokens(s);
    NotNestedShorthand(s);
    assert s[0..2] == "if" && s[3..4] == "a" && s[7..8] == "b";
    var pend, ins := [Pending(0, 0, 7)], [Insert(7, THEN)];
    NotNestedLine(State(5, 0, 0, 0, None, pend, ins), both);
    IdleLine(State(8, 0, 0, 0, None, [], both));
    ScanFrom(s, [START, State(2, 0, 0, 0, None, pend, ins), State(3, 0, 1, 0, None, pend, ins),
                 State(4, 0, 1, 0, None, pend, ins), State(5, 0, 0, 0, None, pend, ins),
                 State(6, 0, 0, 0, None, [], both), State(7, 0, 0, 0, None, [], both),
                 State(8, 0, 0, 0, None, [], both), State(9, 0, 0, 0, None, [], both)]);
  }

  lemma {:induction false} SwappedPair(a: Insert, b: Insert)
    requires a.pos > b.pos
    ensures Sorted([a, b]) == [b, a]
  {
    assert [a, b][..1] == [a] && [a][..0] == [];
    assert Sorted([a]) == [a];
    assert InsertInto([a], b) == [b, a];
  }

  /** A condition that does not nest: only its parentheses are matched, but all brackets are
      counted, so that the `end` comes before the `then`. */
  lemma {:induction false} EndBeforeThen()
    ensures Inserted(NOT_NESTED) == [Insert(5, LINE_END), Insert(7, THEN)] && Total(Inserted(NOT_NESTED)[..1]) == -1
  {
    hide Scan, Sorted;
    var both := [Insert(7, THEN), Insert(5, LINE_END)];
    NotNestedScan(NOT_NESTED, both);
    SwappedPair(both[0], both[1]);
    assert both == [both[0], both[1]];
    assert Inserted(NOT_NESTED)[..1] == [Insert(5, LINE_END)];
  }
}
