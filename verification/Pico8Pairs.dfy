/** Every inserted `then` or `do` has its `end`, and when conditions nest no `end` comes too
    early. */
module Pico8Pairs {
  import opened Options
  import opened Pico8Lex
  import opened Pico8Scan
  import opened Pico8Shorthand
  import opened Pico8Balance

  // ---------------------------------------------------------------------------
  // Counting
  // ---------------------------------------------------------------------------

  /** One more opener, or one more `end`. */
  function Weight(i: Insert): int {
    if Opener(i.text) then 1 else if Ender(i.text) then -1 else 0
  }

  /** Openers minus ends among the pieces up to position `x`. */
  function Net(ins: seq<Insert>, x: int): int {
    if |ins| == 0 then 0
    else Net(ins[..|ins| - 1], x) + if ins[|ins| - 1].pos <= x then Weight(ins[|ins| - 1]) else 0
  }

  /** Openers minus ends. */
  function Total(ins: seq<Insert>): int {
    if |ins| == 0 then 0 else Total(ins[..|ins| - 1]) + Weight(ins[|ins| - 1])
  }

  /** How many pending shorthands were opened up to position `x`. */
  function OpenUpTo(pend: seq<Pending>, x: int): nat {
    if |pend| == 0 then 0
    else OpenUpTo(pend[..|pend| - 1], x) + if pend[|pend| - 1].opener <= x then 1 else 0
  }

  lemma {:induction false} NetMore(ins: seq<Insert>, i: Insert, x: int)
    ensures Net(ins + [i], x) == Net(ins, x) + if i.pos <= x then Weight(i) else 0
    ensures Total(ins + [i]) == Total(ins) + Weight(i)
  {
    assert (ins + [i])[..|ins|] == ins;
  }

  lemma {:induction false} OpenMore(pend: seq<Pending>, p: Pending, x: int)
    ensures OpenUpTo(pend + [p], x) == OpenUpTo(pend, x) + if p.opener <= x then 1 else 0
  {
    assert (pend + [p])[..|pend|] == pend;
  }

  // ---------------------------------------------------------------------------
  // As many ends as openers
  // ---------------------------------------------------------------------------

  lemma {:induction false} CloseDoneTotal(st: State, at: nat, text: string)
    requires Ender(text)
    ensures var r := CloseDone(st, at, text); Total(r.ins) - |r.pend| == Total(st.ins) - |st.pend|
    decreases |st.pend|
  {
    hide Total;
    if TopDone(st) {
      NetMore(st.ins, Insert(at, text), 0);
      CloseDoneTotal(st.(pend := st.pend[..|st.pend| - 1], ins := st.ins + [Insert(at, text)]), at, text);
    }
  }

  lemma {:induction false} CloseAllTotal(st: State, at: nat)
    ensures var r := CloseAll(st, at); Total(r.ins) == Total(st.ins) - |st.pend|
    decreases |st.pend|
  {
    hide Total;
    if |st.pend| > 0 {
      NetMore(st.ins, Insert(at, LINE_END), 0);
      CloseAllTotal(st.(pend := st.pend[..|st.pend| - 1], ins := st.ins + [Insert(at, LINE_END)]), at);
    }
  }

  lemma {:induction false} StepTotal(s: string, st: State)
    requires st.p < |s|
    ensures var r := Step(s, st); Total(r.ins) - |r.pend| == Total(st.ins) - |st.pend|
  {
    hide Total, EndAt, CloseDone, ShorthandAt, Blanks, TopDone;
    var e := EndAt(s, st.p);
    CloseDoneTotal(st, if st.eol.Some? then st.eol.value else st.p, LINE_END);
    CloseDoneTotal(st.(p := e), st.p, WORD_END);
    if ShorthandAt(s, e).Some? {
      var x := ShorthandAt(s, e).value + 1;
      NetMore(st.ins, Insert(x, THEN), 0);
      NetMore(st.ins, Insert(x, DO), 0);
    }
  }

  /** As many `end`s are inserted as `then`s and `do`s. */
  lemma {:induction false} EndsMatchOpeners(s: string, st: State)
    requires st.p <= |s|
    ensures Total(Scan(s, st).ins) == Total(st.ins) - |st.pend|
    decreases |s| - st.p
  {
    hide Total, Step, CloseAll, EndAt;
    if st.p == |s| {
      CloseAllTotal(st, |s|);
    } else {
      StepAdvances(s, st);
      StepTotal(s, st);
      EndsMatchOpeners(s, Step(s, st));
    }
  }

  // ---------------------------------------------------------------------------
  // Ends that come too early
  // ---------------------------------------------------------------------------

  /** Closing what is done at `at` would put an `end` before the opener it belongs to. */
  predicate TooEarly(st: State, at: nat)
    decreases |st.pend|
  {
    TopDone(st) && (st.pend[|st.pend| - 1].opener > at || TooEarly(st.(pend := st.pend[..|st.pend| - 1]), at))
  }

  /** The step closes something inside a condition. */
  predicate StepTooEarly(s: string, st: State)
    requires st.p < |s|
  {
    match KindAt(s, st.p)
    case Newline => TooEarly(st, if st.eol.Some? then st.eol.value else st.p)
    case Word =>
      var word := s[st.p..EndAt(s, st.p)];
      (word == "end" || word == "until") && !(st.p > 0 && (s[st.p - 1] == '.' || s[st.p - 1] == ':')) &&
        TooEarly(st, st.p)
    case _ => false
  }

  ghost predicate ScanTooEarly(s: string, st: State)
    requires st.p <= |s|
    decreases |s| - st.p
  {
    st.p < |s| && (StepTooEarly(s, st) || (StepAdvances(s, st); ScanTooEarly(s, Step(s, st))))
  }

  /** Up to every position, what was inserted covers what is pending. */
  ghost predicate Covered(st: State) {
    forall x: int :: Net(st.ins, x) >= OpenUpTo(st.pend, x)
  }

  lemma {:induction false} CloseOneCovered(st: State, at: nat, text: string)
    requires Covered(st) && |st.pend| > 0 && st.pend[|st.pend| - 1].opener <= at && Ender(text)
    ensures Covered(st.(pend := st.pend[..|st.pend| - 1], ins := st.ins + [Insert(at, text)]))
  {
    hide Net, OpenUpTo;
    forall x: int
      ensures Net(st.ins + [Insert(at, text)], x) >= OpenUpTo(st.pend[..|st.pend| - 1], x)
    {
      NetMore(st.ins, Insert(at, text), x);
      assert st.pend == st.pend[..|st.pend| - 1] + [st.pend[|st.pend| - 1]];
      OpenMore(st.pend[..|st.pend| - 1], st.pend[|st.pend| - 1], x);
    }
  }

  lemma {:induction false} CloseDoneCovered(st: State, at: nat, text: string)
    requires Covered(st) && !TooEarly(st, at) && Ender(text)
    ensures Covered(CloseDone(st, at, text))
    decreases |st.pend|
  {
    hide Covered;
    if TopDone(st) {
      var next := st.(pend := st.pend[..|st.pend| - 1], ins := st.ins + [Insert(at, text)]);
      CloseOneCovered(st, at, text);
      SameEarly(st.(pend := next.pend), next, at);
      CloseDoneCovered(next, at, text);
    }
  }

  lemma {:induction false} SameEarly(a: State, b: State, at: nat)
    requires a.pend == b.pend && a.blocks == b.blocks && a.parens == b.parens
    ensures TooEarly(a, at) == TooEarly(b, at)
    decreases |a.pend|
  {
    if TopDone(a) {
      var rest := a.pend[..|a.pend| - 1];
      SameEarly(a.(pend := rest), b.(pend := rest), at);
    }
  }

  /** Openers are inside the text. */
  ghost predicate OpenersIn(st: State, n: nat) {
    forall k :: 0 <= k < |st.pend| ==> st.pend[k].opener <= n
  }

  lemma {:induction false} CloseAllCovered(st: State, at: nat)
    requires Covered(st) && OpenersIn(st, at)
    ensures Covered(CloseAll(st, at))
    decreases |st.pend|
  {
    hide Covered;
    if |st.pend| > 0 {
      CloseOneCovered(st, at, LINE_END);
      CloseAllCovered(st.(pend := st.pend[..|st.pend| - 1], ins := st.ins + [Insert(at, LINE_END)]), at);
    }
  }

  lemma {:induction false} OpenCovered(st: State, x: nat, text: string)
    requires Covered(st) && Opener(text)
    ensures Covered(st.(ins := st.ins + [Insert(x, text)], pend := st.pend + [Pending(st.blocks, st.parens, x)]))
  {
    hide Net, OpenUpTo;
    var p := Pending(st.blocks, st.parens, x);
    forall y: int
      ensures Net(st.ins + [Insert(x, text)], y) >= OpenUpTo(st.pend + [p], y)
    {
      NetMore(st.ins, Insert(x, text), y);
      OpenMore(st.pend, p, y);
    }
  }

  lemma {:induction false} CoveredBy(a: State, b: State)
    requires Covered(a) && a.ins == b.ins && a.pend == b.pend
    ensures Covered(b)
  {}

  lemma {:induction false} WordCovered(s: string, st: State)
    requires st.p < |s| && KindAt(s, st.p).Word? && Covered(st) && !StepTooEarly(s, st)
    ensures Covered(Step(s, st))
  {
    hide EndAt, CloseDone, ShorthandAt, TopDone, Covered, TooEarly;
    var e := EndAt(s, st.p);
    var next := st.(p := e);
    CoveredBy(st, next);
    var word := s[st.p..e];
    var field := st.p > 0 && (s[st.p - 1] == '.' || s[st.p - 1] == ':');
    if !field && (word == "if" || word == "while") && ShorthandAt(s, e).Some? {
      OpenCovered(next, ShorthandAt(s, e).value + 1, if word == "if" then THEN else DO);
    } else if !field && (word == "end" || word == "until") {
      SameEarly(st, next, st.p);
      CloseDoneCovered(next, st.p, WORD_END);
      CoveredBy(CloseDone(next, st.p, WORD_END), Step(s, st));
    } else {
      CoveredBy(st, Step(s, st));
    }
  }

  lemma {:induction false} StepCovered(s: string, st: State)
    requires st.p < |s| && Covered(st) && !StepTooEarly(s, st)
    ensures Covered(Step(s, st))
  {
    hide EndAt, CloseDone, WordStep, TopDone, Covered, TooEarly, Blanks;
    match KindAt(s, st.p)
    case Word => WordCovered(s, st);
    case Newline =>
      var at := if st.eol.Some? then st.eol.value else st.p;
      CloseDoneCovered(st, at, LINE_END);
      CoveredBy(CloseDone(st, at, LINE_END), Step(s, st));
    case _ =>
      CoveredBy(st, Step(s, st));
  }

  lemma {:induction false} CloseDoneOpeners(st: State, at: nat, text: string, n: nat)
    requires OpenersIn(st, n)
    ensures OpenersIn(CloseDone(st, at, text), n)
    decreases |st.pend|
  {
    if TopDone(st) {
      CloseDoneOpeners(st.(pend := st.pend[..|st.pend| - 1], ins := st.ins + [Insert(at, text)]), at, text, n);
    }
  }

  lemma {:induction false} StepOpeners(s: string, st: State)
    requires st.p < |s| && OpenersIn(st, |s|)
    ensures OpenersIn(Step(s, st), |s|)
  {
    hide EndAt, CloseDone, ShorthandAt, TopDone, Blanks;
    CloseDoneOpeners(st, if st.eol.Some? then st.eol.value else st.p, LINE_END, |s|);
    CloseDoneOpeners(st.(p := EndAt(s, st.p)), st.p, WORD_END, |s|);
  }

  lemma {:induction false} ScanCovered(s: string, st: State)
    requires st.p <= |s| && Covered(st) && OpenersIn(st, |s|) && !ScanTooEarly(s, st)
    ensures Covered(Scan(s, st))
    decreases |s| - st.p
  {
    hide Step, CloseAll, EndAt, Covered, StepTooEarly, OpenersIn;
    if st.p == |s| {
      CloseAllCovered(st, |s|);
    } else {
      StepAdvances(s, st);
      StepCovered(s, st);
      StepOpeners(s, st);
      ScanCovered(s, Step(s, st));
    }
  }

  // ---------------------------------------------------------------------------
  // Order at one position
  // ---------------------------------------------------------------------------

  /** Ends are at or before `p`, and an opener recorded after an `end` is behind it. */
  ghost predicate Ordered(ins: seq<Insert>, p: nat) {
    && (forall k :: 0 <= k < |ins| && Ender(ins[k].text) ==> ins[k].pos <= p)
    && (forall i, j :: 0 <= i < j < |ins| && Ender(ins[i].text) && Opener(ins[j].text) ==> ins[i].pos < ins[j].pos)
  }

  lemma {:induction false} OrderedMore(ins: seq<Insert>, p: nat, i: Insert)
    requires Ordered(ins, p) && if Ender(i.text) then i.pos <= p else i.pos > p
    ensures Ordered(ins + [i], p)
  {}

  lemma {:induction false} OrderedLater(ins: seq<Insert>, p: nat, q: nat)
    requires Ordered(ins, p) && p <= q
    ensures Ordered(ins, q)
  {}

  lemma {:induction false} CloseDoneOrdered(st: State, at: nat, text: string, p: nat)
    requires Ordered(st.ins, p) && at <= p && Ender(text)
    ensures Ordered(CloseDone(st, at, text).ins, p)
    decreases |st.pend|
  {
    hide Ordered;
    if TopDone(st) {
      OrderedMore(st.ins, p, Insert(at, text));
      CloseDoneOrdered(st.(pend := st.pend[..|st.pend| - 1], ins := st.ins + [Insert(at, text)]), at, text, p);
    }
  }

  lemma {:induction false} CloseAllOrdered(st: State, at: nat)
    requires Ordered(st.ins, at)
    ensures Ordered(CloseAll(st, at).ins, at)
    decreases |st.pend|
  {
    hide Ordered;
    if |st.pend| > 0 {
      OrderedMore(st.ins, at, Insert(at, LINE_END));
      CloseAllOrdered(st.(pend := st.pend[..|st.pend| - 1], ins := st.ins + [Insert(at, LINE_END)]), at);
    }
  }

  lemma {:induction false} StepOrdered(s: string, st: State)
    requires st.p < |s| && Ordered(st.ins, st.p) && (st.eol.Some? ==> st.eol.value <= st.p)
    ensures Ordered(Step(s, st).ins, EndAt(s, st.p))
    ensures Step(s, st).eol.Some? ==> Step(s, st).eol.value <= EndAt(s, st.p)
  {
    hide EndAt, CloseDone, ShorthandAt, Blanks, TopDone, Ordered;
    var e := EndAt(s, st.p);
    OrderedLater(st.ins, st.p, e);
    StepEol(s, st);
    CloseDoneOrdered(st, if st.eol.Some? then st.eol.value else st.p, LINE_END, e);
    CloseDoneOrdered(st.(p := e), st.p, WORD_END, e);
    if ShorthandAt(s, e).Some? {
      OrderedMore(st.ins, e, Insert(ShorthandAt(s, e).value + 1, THEN));
      OrderedMore(st.ins, e, Insert(ShorthandAt(s, e).value + 1, DO));
    }
  }

  lemma {:induction false} ScanOrdered(s: string, st: State)
    requires st.p <= |s| && Ordered(st.ins, st.p) && (st.eol.Some? ==> st.eol.value <= st.p)
    ensures Ordered(Scan(s, st).ins, |s|)
    decreases |s| - st.p
  {
    hide Step, CloseAll, EndAt, Ordered;
    if st.p == |s| {
      CloseAllOrdered(st, |s|);
    } else {
      StepAdvances(s, st);
      StepOrdered(s, st);
      ScanOrdered(s, Step(s, st));
    }
  }

  /** At one position openers come first. */
  ghost predicate OpenersFirst(l: seq<Insert>) {
    forall i, j :: 0 <= i < j < |l| && l[i].pos == l[j].pos && Ender(l[i].text) ==> !Opener(l[j].text)
  }

  lemma {:induction false} InsertOpenersFirst(l: seq<Insert>, t: Insert)
    requires OpenersFirst(l)
    requires Opener(t.text) ==> forall i :: 0 <= i < |l| && Ender(l[i].text) ==> l[i].pos != t.pos
    ensures OpenersFirst(InsertInto(l, t))
  {
    if |l| > 0 && l[|l| - 1].pos > t.pos {
      var n := |l| - 1;
      InsertOpenersFirst(l[..n], t);
      var r := InsertInto(l[..n], t);
      forall i | 0 <= i < |r| && r[i].pos == l[n].pos && Ender(r[i].text)
        ensures !Opener(l[n].text)
      {
        hide InsertInto;
        OfInserted(l[..n], t, i);
        var k :| 0 <= k < n && l[k] == r[i];
      }
      LastOpenersFirst(r, l[n]);
    }
  }

  lemma {:induction false} LastOpenersFirst(r: seq<Insert>, t: Insert)
    requires OpenersFirst(r) && forall i :: 0 <= i < |r| && r[i].pos == t.pos && Ender(r[i].text) ==> !Opener(t.text)
    ensures OpenersFirst(r + [t])
  {}

  lemma {:induction false} SortedOpenersFirst(l: seq<Insert>, p: nat)
    requires Ordered(l, p)
    ensures OpenersFirst(Sorted(l))
    decreases |l|
  {
    if |l| > 0 {
      var n := |l| - 1;
      SortedOpenersFirst(l[..n], p);
      SortedAscends(l[..n]);
      var r := Sorted(l[..n]);
      forall i | 0 <= i < |r| && Ender(r[i].text) && Opener(l[n].text)
        ensures r[i].pos != l[n].pos
      {
        assert r[i] in multiset(r) && r[i] in multiset(l[..n]);
        var k :| 0 <= k < n && l[k] == r[i];
      }
      InsertOpenersFirst(r, l[n]);
    }
  }

  // ---------------------------------------------------------------------------
  // Prefixes of the output
  // ---------------------------------------------------------------------------

  lemma {:induction false} InsertNet(l: seq<Insert>, t: Insert, x: int)
    ensures Net(InsertInto(l, t), x) == Net(l, x) + if t.pos <= x then Weight(t) else 0
  {
    if |l| == 0 || l[|l| - 1].pos <= t.pos {
      NetMore(l, t, x);
    } else {
      InsertNet(l[..|l| - 1], t, x);
      NetMore(InsertInto(l[..|l| - 1], t), l[|l| - 1], x);
    }
  }

  lemma {:induction false} SortedNet(l: seq<Insert>, x: int)
    ensures Net(Sorted(l), x) == Net(l, x)
  {
    if |l| > 0 {
      SortedNet(l[..|l| - 1], x);
      InsertNet(Sorted(l[..|l| - 1]), l[|l| - 1], x);
    }
  }

  /** After an `end`, no opener is left for its position. */
  lemma {:induction false} NetBelow(l: seq<Insert>, n: nat, m: nat)
    requires Ascending(l) && OpenersFirst(l) && 1 <= n <= m <= |l| && Ender(l[n - 1].text)
    ensures Net(l[..m], l[n - 1].pos) <= Total(l[..n])
    decreases m
  {
    var x := l[n - 1].pos;
    assert m > 0 && l[..m][..m - 1] == l[..m - 1];
    if m > n {
      NetBelow(l, n, m - 1);
    } else {
      NetIsTotal(l, n, x);
    }
  }

  lemma {:induction false} NetIsTotal(l: seq<Insert>, n: nat, x: int)
    requires n <= |l| && forall k :: 0 <= k < n ==> l[k].pos <= x
    ensures Net(l[..n], x) == Total(l[..n])
  {
    if n > 0 {
      assert l[..n][..n - 1] == l[..n - 1];
      NetIsTotal(l, n - 1, x);
    }
  }

  /** The pieces up to a position are a beginning of the sorted list. */
  lemma {:induction false} NetIsPrefix(l: seq<Insert>, x: int) returns (n: nat)
    requires Ascending(l)
    ensures n <= |l| && Net(l, x) == Total(l[..n])
    decreases |l|
  {
    if |l| == 0 || l[|l| - 1].pos <= x {
      n := |l|;
      assert l[..n] == l;
      NetIsTotal(l, n, x);
    } else {
      n := NetIsPrefix(l[..|l| - 1], x);
      assert l[..|l| - 1][..n] == l[..n];
    }
  }

  lemma {:induction false} PrefixesBalanced(l: seq<Insert>, n: nat)
    requires Ascending(l) && OpenersFirst(l) && n <= |l|
    requires forall x: int :: Net(l, x) >= 0
    requires forall k :: 0 <= k < |l| ==> Opener(l[k].text) || Ender(l[k].text)
    ensures Total(l[..n]) >= 0
  {
    if n > 0 {
      assert l[..n][..n - 1] == l[..n - 1] && l[..|l|] == l;
      if Ender(l[n - 1].text) {
        NetBelow(l, n, |l|);
      } else {
        PrefixesBalanced(l, n - 1);
      }
    }
  }
}
