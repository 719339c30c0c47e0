/** Which inserted `end` belongs to which `then` or `do`, and where both end up. */
module Pico8Matching {
  import opened Options
  import opened Pico8Lex
  import opened Pico8Scan
  import opened Pico8Shorthand
  import opened Pico8Pairs

  // ---------------------------------------------------------------------------
  // Pairs
  // ---------------------------------------------------------------------------

  /** The recorded openers whose `end` is not recorded yet, by index, the innermost last. */
  ghost function Unclosed(ins: seq<Insert>): (u: seq<nat>)
    ensures forall k :: 0 <= k < |u| ==> u[k] < |ins|
  {
    if |ins| == 0 then []
    else
      var n := |ins| - 1;
      var u := Unclosed(ins[..n]);
      if Opener(ins[n].text) then u + [n]
      else if Ender(ins[n].text) && |u| > 0 then u[..|u| - 1]
      else u
  }

  /** Piece `j` is an `end` that closes an opener. */
  ghost predicate Closes(ins: seq<Insert>, j: nat)
    requires j < |ins|
  {
    Ender(ins[j].text) && |Unclosed(ins[..j])| > 0
  }

  /** The opener that the `end` at index `j` closes. */
  ghost function Own(ins: seq<Insert>, j: nat): (i: nat)
    requires j < |ins| && Closes(ins, j)
    ensures i < j
  {
    Unclosed(ins[..j])[|Unclosed(ins[..j])| - 1]
  }

  ghost predicate EndsPaired(ins: seq<Insert>) {
    forall j :: 0 <= j < |ins| && Ender(ins[j].text) ==> Closes(ins, j)
  }

  /** The scanner's pending shorthands are the unclosed openers. */
  ghost predicate Linked(st: State) {
    && EndsPaired(st.ins) && |Unclosed(st.ins)| == |st.pend|
    && forall k :: 0 <= k < |st.pend| ==> st.ins[Unclosed(st.ins)[k]].pos == st.pend[k].opener
  }

  lemma {:induction false} UnclosedMore(ins: seq<Insert>, i: Insert)
    ensures var u := Unclosed(ins);
            Unclosed(ins + [i]) == if Opener(i.text) then u + [|ins|]
                                   else if Ender(i.text) && |u| > 0 then u[..|u| - 1] else u
  {
    assert (ins + [i])[..|ins|] == ins;
  }

  lemma {:induction false} ClosesMore(ins: seq<Insert>, i: Insert, j: nat)
    requires j < |ins|
    ensures Closes(ins + [i], j) == Closes(ins, j)
    ensures Closes(ins, j) ==> Own(ins + [i], j) == Own(ins, j)
  {
    assert (ins + [i])[..j] == ins[..j];
  }

  lemma {:induction false} PairedMore(ins: seq<Insert>, i: Insert)
    requires EndsPaired(ins) && (Ender(i.text) ==> |Unclosed(ins)| > 0)
    ensures EndsPaired(ins + [i])
  {
    hide Unclosed;
    assert (ins + [i])[..|ins|] == ins;
    forall j | 0 <= j < |ins|
      ensures Closes(ins + [i], j) == Closes(ins, j)
    {
      ClosesMore(ins, i, j);
    }
  }

  // ---------------------------------------------------------------------------
  // Ends before their openers
  // ---------------------------------------------------------------------------

  /** Among the pieces from index `from` on there is an `end` at a position before its opener. */
  ghost predicate SomeEarly(ins: seq<Insert>, from: nat) {
    exists j :: from <= j < |ins| && Closes(ins, j) && ins[Own(ins, j)].pos > ins[j].pos
  }

  lemma {:induction false} EarlyMore(ins: seq<Insert>, i: Insert, from: nat)
    requires from <= |ins|
    ensures SomeEarly(ins + [i], from) <==> SomeEarly(ins, from) || SomeEarly(ins + [i], |ins|)
  {
    hide Closes, Own;
    var both := ins + [i];
    forall j | 0 <= j < |ins|
      ensures Closes(both, j) == Closes(ins, j) && (Closes(ins, j) ==> Own(both, j) == Own(ins, j))
    {
      ClosesMore(ins, i, j);
    }
    if SomeEarly(ins, from) {
      var j :| from <= j < |ins| && Closes(ins, j) && ins[Own(ins, j)].pos > ins[j].pos;
      assert Closes(both, j) && both[Own(both, j)].pos > both[j].pos;
    }
    if SomeEarly(both, from) {
      var j :| from <= j < |both| && Closes(both, j) && both[Own(both, j)].pos > both[j].pos;
      assert j < |ins| ==> Closes(ins, j) && ins[Own(ins, j)].pos > ins[j].pos;
    }
  }

  /** The same for several pieces. */
  lemma {:induction false} EarlyParts(a: seq<Insert>, b: seq<Insert>, from: nat)
    requires a <= b && from <= |a|
    ensures SomeEarly(b, from) <==> SomeEarly(a, from) || SomeEarly(b, |a|)
    decreases |b|
  {
    hide SomeEarly;
    if |a| == |b| {
      assert a == b;
      NoneAfter(a);
    } else {
      var n := |b| - 1;
      EarlyParts(a, b[..n], from);
      assert b == b[..n] + [b[n]];
      EarlyMore(b[..n], b[n], from);
      EarlyMore(b[..n], b[n], |a|);
    }
  }

  lemma {:induction false} NoneAfter(ins: seq<Insert>)
    ensures !SomeEarly(ins, |ins|)
  {}

  /** One shorthand is closed. */
  lemma {:induction false} CloseOneLinked(st: State, at: nat, text: string)
    requires Linked(st) && |st.pend| > 0 && Ender(text)
    ensures var r := st.(pend := st.pend[..|st.pend| - 1], ins := st.ins + [Insert(at, text)]);
            Linked(r) && (SomeEarly(r.ins, |st.ins|) <==> st.pend[|st.pend| - 1].opener > at)
  {
    hide Unclosed;
    var i := Insert(at, text);
    UnclosedMore(st.ins, i);
    PairedMore(st.ins, i);
    var ins := st.ins + [i];
    var n := |st.ins|;
    assert ins[..n] == st.ins && Closes(ins, n);
    assert ins[Own(ins, n)].pos == st.pend[|st.pend| - 1].opener;
  }

  lemma {:induction false} CloseDoneLinked(st: State, at: nat, text: string)
    requires Linked(st) && Ender(text)
    ensures var r := CloseDone(st, at, text);
            Linked(r) && st.ins <= r.ins && (SomeEarly(r.ins, |st.ins|) <==> TooEarly(st, at))
    decreases |st.pend|
  {
    hide Linked, SomeEarly;
    if TopDone(st) {
      var next := st.(pend := st.pend[..|st.pend| - 1], ins := st.ins + [Insert(at, text)]);
      CloseOneLinked(st, at, text);
      SameEarly(st.(pend := next.pend), next, at);
      CloseDoneLinked(next, at, text);
      EarlyParts(next.ins, CloseDone(next, at, text).ins, |st.ins|);
    } else {
      NoneAfter(st.ins);
    }
  }

  lemma {:induction false} CloseAllLinked(st: State, at: nat)
    requires Linked(st) && OpenersIn(st, at)
    ensures var r := CloseAll(st, at);
            Linked(r) && |r.pend| == 0 && st.ins <= r.ins && !SomeEarly(r.ins, |st.ins|)
    decreases |st.pend|
  {
    hide Linked, SomeEarly;
    if |st.pend| > 0 {
      var next := st.(pend := st.pend[..|st.pend| - 1], ins := st.ins + [Insert(at, LINE_END)]);
      CloseOneLinked(st, at, LINE_END);
      CloseAllLinked(next, at);
      EarlyParts(next.ins, CloseAll(next, at).ins, |st.ins|);
    } else {
      NoneAfter(st.ins);
    }
  }

  lemma {:induction false} OpenLinked(st: State, x: nat, text: string)
    requires Linked(st) && Opener(text)
    ensures var r := st.(ins := st.ins + [Insert(x, text)], pend := st.pend + [Pending(st.blocks, st.parens, x)]);
            Linked(r) && !SomeEarly(r.ins, |st.ins|)
  {
    hide Unclosed;
    UnclosedMore(st.ins, Insert(x, text));
    PairedMore(st.ins, Insert(x, text));
  }

  lemma {:induction false} LinkedBy(a: State, b: State)
    requires Linked(a) && a.ins == b.ins && a.pend == b.pend
    ensures Linked(b)
  {}

  lemma {:induction false} WordLinked(s: string, st: State)
    requires st.p < |s| && KindAt(s, st.p).Word? && Linked(st)
    ensures var r := Step(s, st);
            Linked(r) && st.ins <= r.ins && (SomeEarly(r.ins, |st.ins|) <==> StepTooEarly(s, st))
  {
    hide EndAt, CloseDone, ShorthandAt, TopDone, Linked, TooEarly, SomeEarly;
    var e := EndAt(s, st.p);
    var next := st.(p := e);
    LinkedBy(st, next);
    NoneAfter(st.ins);
    var word := s[st.p..e];
    var field := st.p > 0 && (s[st.p - 1] == '.' || s[st.p - 1] == ':');
    if !field && (word == "if" || word == "while") && ShorthandAt(s, e).Some? {
      OpenLinked(next, ShorthandAt(s, e).value + 1, if word == "if" then THEN else DO);
    } else if !field && (word == "end" || word == "until") {
      SameEarly(st, next, st.p);
      CloseDoneLinked(next, st.p, WORD_END);
      LinkedBy(CloseDone(next, st.p, WORD_END), Step(s, st));
    } else {
      LinkedBy(st, Step(s, st));
    }
  }

  lemma {:induction false} StepLinked(s: string, st: State)
    requires st.p < |s| && Linked(st)
    ensures var r := Step(s, st);
            Linked(r) && st.ins <= r.ins && (SomeEarly(r.ins, |st.ins|) <==> StepTooEarly(s, st))
  {
    hide EndAt, CloseDone, WordStep, TopDone, Linked, TooEarly, Blanks, SomeEarly;
    NoneAfter(st.ins);
    match KindAt(s, st.p)
    case Word => WordLinked(s, st);
    case Newline =>
      var at := if st.eol.Some? then st.eol.value else st.p;
      CloseDoneLinked(st, at, LINE_END);
      LinkedBy(CloseDone(st, at, LINE_END), Step(s, st));
    case _ =>
      LinkedBy(st, Step(s, st));
  }

  lemma {:induction false} ScanLinked(s: string, st: State)
    requires st.p <= |s| && Linked(st) && OpenersIn(st, |s|)
    ensures var r := Scan(s, st);
            Linked(r) && |r.pend| == 0 && st.ins <= r.ins && (SomeEarly(r.ins, |st.ins|) <==> ScanTooEarly(s, st))
    decreases |s| - st.p
  {
    hide Step, CloseAll, EndAt, Linked, SomeEarly, StepTooEarly, OpenersIn;
    if st.p == |s| {
      CloseAllLinked(st, |s|);
    } else {
      StepAdvances(s, st);
      StepLinked(s, st);
      StepOpeners(s, st);
      ScanLinked(s, Step(s, st));
      EarlyParts(Step(s, st).ins, Scan(s, st).ins, |st.ins|);
    }
  }

  // ---------------------------------------------------------------------------
  // Each opener has one end
  // ---------------------------------------------------------------------------

  lemma {:induction false} UnclosedAscends(ins: seq<Insert>)
    ensures var u := Unclosed(ins); forall a, b :: 0 <= a < b < |u| ==> u[a] < u[b]
  {
    if |ins| > 0 {
      var n := |ins| - 1;
      UnclosedAscends(ins[..n]);
      assert ins == ins[..n] + [ins[n]];
      UnclosedMore(ins[..n], ins[n]);
    }
  }

  lemma {:induction false} NotBoth(t: string)
    requires Ender(t)
    ensures !Opener(t)
  {
    assert DO[1] == 'd' && THEN[1] == 't' && LINE_END[1] == 'e' && WORD_END[1] == 'n';
  }

  /** What an `end` closes is not unclosed after it. */
  lemma {:induction false} ClosedNow(ins: seq<Insert>, j: nat)
    requires j < |ins| && Closes(ins, j)
    ensures Own(ins, j) !in Unclosed(ins[..j + 1])
  {
    hide Unclosed, Opener, Ender;
    UnclosedAscends(ins[..j]);
    NotBoth(ins[j].text);
    assert ins[..j + 1] == ins[..j] + [ins[j]];
    UnclosedMore(ins[..j], ins[j]);
  }

  lemma {:induction false} OnlyNewUnclosed(ins: seq<Insert>, i: Insert, x: nat)
    requires x in Unclosed(ins + [i])
    ensures x in Unclosed(ins) || x == |ins|
  {
    hide Unclosed, Opener, Ender;
    UnclosedMore(ins, i);
  }

  /** Closed once, closed for good. */
  lemma {:induction false} StaysClosed(ins: seq<Insert>, j: nat, m: nat)
    requires j < m <= |ins| && Closes(ins, j)
    ensures Own(ins, j) !in Unclosed(ins[..m])
    decreases m
  {
    hide Unclosed, Own, Closes;
    if m - 1 == j {
      ClosedNow(ins, j);
    } else {
      StaysClosed(ins, j, m - 1);
      assert ins[..m] == ins[..m - 1] + [ins[m - 1]];
      if Own(ins, j) in Unclosed(ins[..m]) {
        OnlyNewUnclosed(ins[..m - 1], ins[m - 1], Own(ins, j));
      }
    }
  }

  lemma {:induction false} OwnDistinct(ins: seq<Insert>, j: nat, m: nat)
    requires j < m < |ins| && Closes(ins, j) && Closes(ins, m)
    ensures Own(ins, j) != Own(ins, m)
  {
    hide Unclosed;
    StaysClosed(ins, j, m);
    assert Own(ins, m) in Unclosed(ins[..m]);
  }

  /** An opener that is unclosed at `m` and closed in the end is closed by some `end`. */
  lemma {:induction false} ClosedLater(ins: seq<Insert>, i: nat, m: nat) returns (j: nat)
    requires i < m <= |ins| && i in Unclosed(ins[..m]) && |Unclosed(ins)| == 0
    ensures i < j < |ins| && Closes(ins, j) && Own(ins, j) == i
    decreases |ins| - m
  {
    hide Unclosed;
    assert ins[..|ins|] == ins;
    assert ins[..m + 1] == ins[..m] + [ins[m]];
    UnclosedMore(ins[..m], ins[m]);
    if i in Unclosed(ins[..m + 1]) {
      j := ClosedLater(ins, i, m + 1);
    } else {
      j := m;
    }
  }

  lemma {:induction false} HasEnd(ins: seq<Insert>, i: nat) returns (j: nat)
    requires i < |ins| && Opener(ins[i].text) && |Unclosed(ins)| == 0
    ensures i < j < |ins| && Closes(ins, j) && Own(ins, j) == i
  {
    hide Unclosed;
    assert ins[..i + 1] == ins[..i] + [ins[i]];
    UnclosedMore(ins[..i], ins[i]);
    var u := Unclosed(ins[..i + 1]);
    assert u[|u| - 1] == i;
    j := ClosedLater(ins, i, i + 1);
  }

  // ---------------------------------------------------------------------------
  // Where a recorded piece ends up
  // ---------------------------------------------------------------------------

  /** Where `t` goes into `l`. */
  ghost function Slot(l: seq<Insert>, t: Insert): (k: nat)
    ensures k <= |l|
  {
    if |l| == 0 || l[|l| - 1].pos <= t.pos then |l| else Slot(l[..|l| - 1], t)
  }

  /** The index in `Sorted(l)` of the piece recorded as number `k`. */
  ghost function Rank(l: seq<Insert>, k: nat): (r: nat)
    requires k < |l|
    ensures r < |l|
  {
    var n := |l| - 1;
    var slot := Slot(Sorted(l[..n]), l[n]);
    if k == n then slot
    else
      var r := Rank(l[..n], k);
      if r < slot then r else r + 1
  }

  lemma {:induction false} StillAscending(l: seq<Insert>, n: nat)
    requires n <= |l| && Ascending(l)
    ensures Ascending(l[..n])
  {}

  lemma {:induction false} SlotDivides(l: seq<Insert>, t: Insert)
    requires Ascending(l)
    ensures forall k :: 0 <= k < |l| ==> (k < Slot(l, t) <==> l[k].pos <= t.pos)
  {
    if |l| > 0 && l[|l| - 1].pos > t.pos {
      SlotDivides(l[..|l| - 1], t);
    }
  }

  lemma {:induction false} SlotSplits(l: seq<Insert>, t: Insert)
    requires Ascending(l)
    ensures var x := Slot(l, t);
            && InsertInto(l, t) == l[..x] + [t] + l[x..]
            && forall k :: 0 <= k < |l| ==> (k < x <==> l[k].pos <= t.pos)
  {
    SlotDivides(l, t);
    if |l| > 0 && l[|l| - 1].pos > t.pos {
      hide Ascending;
      var n := |l| - 1;
      StillAscending(l, n);
      SlotSplits(l[..n], t);
      Spliced(l, Slot(l[..n], t), t);
    } else {
      assert l[..|l|] == l && l[|l|..] == [] && l + [t] + [] == l + [t];
    }
  }

  lemma {:induction false} Spliced(l: seq<Insert>, x: nat, t: Insert)
    requires x < |l|
    ensures var n := |l| - 1; l[..n][..x] + [t] + l[..n][x..] + [l[n]] == l[..x] + [t] + l[x..]
  {
    var n := |l| - 1;
    assert l[..n][..x] == l[..x];
    assert l[..n][x..] + [l[n]] == l[x..];
    var a, b := l[..x] + [t], l[..n][x..];
    assert a + b + [l[n]] == a + (b + [l[n]]);
  }

  /** That is where the piece is. */
  lemma {:induction false} RankFinds(l: seq<Insert>, k: nat)
    requires k < |l|
    ensures Sorted(l)[Rank(l, k)] == l[k]
  {
    hide Slot, InsertInto;
    var n := |l| - 1;
    SortedAscends(l[..n]);
    SlotSplits(Sorted(l[..n]), l[n]);
    if k < n {
      RankFinds(l[..n], k);
    }
  }

  /** Of two pieces the one recorded first comes first unless its position is larger. */
  lemma {:induction false} RankOrder(l: seq<Insert>, i: nat, k: nat)
    requires i < k < |l|
    ensures Rank(l, i) != Rank(l, k)
    ensures Rank(l, i) < Rank(l, k) <==> l[i].pos <= l[k].pos
  {
    hide Slot, InsertInto, Sorted;
    var n := |l| - 1;
    if k < n {
      RankOrder(l[..n], i, k);
    } else {
      SortedAscends(l[..n]);
      SlotSplits(Sorted(l[..n]), l[n]);
      RankFinds(l[..n], i);
    }
  }
}
