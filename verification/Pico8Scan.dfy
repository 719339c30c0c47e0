/** The scan for then-less `if` and do-less `while`: which pieces of text are inserted where. */
module Pico8Scan {
  import opened Options
  import opened Pico8Lex

  /** A piece of text and the position in the source before which it goes. */
  datatype Insert = Insert(pos: nat, text: string)

  /** A shorthand whose body is not finished: what was open at its keyword, and where its
      `then` or `do` was inserted. */
  datatype Pending = Pending(blocks: nat, parens: nat, opener: nat)

  /** The scan at position `p`. `eol` is where the `end`s of this line go when a comment
      finishes it. */
  datatype State = State(p: nat, blocks: nat, parens: nat, loopDo: nat, eol: Option<nat>,
                         pend: seq<Pending>, ins: seq<Insert>)

  const THEN := " then "
  const DO := " do "
  const LINE_END := " end"
  const WORD_END := "end "

  predicate Opener(t: string) {
    t == THEN || t == DO
  }

  predicate Ender(t: string) {
    t == LINE_END || t == WORD_END
  }

  // ---------------------------------------------------------------------------
  // Steps
  // ---------------------------------------------------------------------------

  /** Nothing opened since the innermost pending shorthand is still open. */
  predicate TopDone(st: State) {
    |st.pend| > 0 && st.pend[|st.pend| - 1].blocks == st.blocks && st.pend[|st.pend| - 1].parens == st.parens
  }

  /** An `end` at `at` for every pending shorthand whose body finishes here. */
  function CloseDone(st: State, at: nat, text: string): State
    decreases |st.pend|
  {
    if TopDone(st) then
      CloseDone(st.(pend := st.pend[..|st.pend| - 1], ins := st.ins + [Insert(at, text)]), at, text)
    else st
  }

  function CloseAll(st: State, at: nat): State
    decreases |st.pend|
  {
    if |st.pend| > 0 then
      CloseAll(st.(pend := st.pend[..|st.pend| - 1], ins := st.ins + [Insert(at, LINE_END)]), at)
    else st
  }

  function Down(n: nat): nat {
    if n > 0 then n - 1 else 0
  }

  /** Where the condition that starts after `i` closes, when a shorthand's body follows. */
  function ShorthandAt(s: string, i: nat): (r: Option<nat>)
    requires i <= |s|
    ensures r.Some? ==> i < r.value < |s|
  {
    var q := Blanks(s, i);
    if !CharAt(s, q, '(') then None
    else
      var close := MatchParen(s, q + 1, 1);
      if close.Some? && BodyFollows(s, close.value + 1) then close else None
  }

  /** A word from `w` to `e`. */
  function WordStep(s: string, st: State, w: nat, e: nat): State
    requires w < e <= |s|
  {
    var word := s[w..e];
    var next := st.(p := e);
    if w > 0 && (s[w - 1] == '.' || s[w - 1] == ':') then next
    else if word == "if" || word == "while" then
      var close := ShorthandAt(s, e);
      if close.Some? then
        next.(ins := st.ins + [Insert(close.value + 1, if word == "if" then THEN else DO)],
              pend := st.pend + [Pending(st.blocks, st.parens, close.value + 1)])
      else next.(blocks := st.blocks + 1, loopDo := if word == "if" then st.loopDo else st.loopDo + 1)
    else if word == "for" then next.(blocks := st.blocks + 1, loopDo := st.loopDo + 1)
    else if word == "do" then
      if st.loopDo > 0 then next.(loopDo := st.loopDo - 1) else next.(blocks := st.blocks + 1)
    else if word == "function" || word == "repeat" then next.(blocks := st.blocks + 1)
    else if word == "end" || word == "until" then
      var closed := CloseDone(next, w, WORD_END);
      closed.(blocks := Down(closed.blocks))
    else next
  }

  function NewlineStep(st: State): State {
    var at := if st.eol.Some? then st.eol.value else st.p;
    var closed := CloseDone(st, at, LINE_END);
    closed.(eol := None, p := st.p + 1)
  }

  /** A comment from `st.p` to `e`: the line's `end`s go before it, unless code follows it. */
  function CommentStep(s: string, st: State, e: nat, long: bool): State
    requires e <= |s|
  {
    var eol := if st.eol.None? then Some(st.p) else st.eol;
    var q := Blanks(s, e);
    st.(p := e, eol := if long && q < |s| && s[q] != '\n' then None else eol)
  }

  function Step(s: string, st: State): State
    requires st.p < |s|
  {
    var e := EndAt(s, st.p);
    match KindAt(s, st.p)
    case Newline => NewlineStep(st)
    case LineComment => CommentStep(s, st, e, false)
    case LongComment => CommentStep(s, st, e, true)
    case Open => st.(p := e, parens := st.parens + 1)
    case Close => st.(p := e, parens := Down(st.parens))
    case Word => WordStep(s, st, st.p, e)
    case _ => st.(p := e)
  }

  lemma {:induction false} CloseDoneKeeps(st: State, at: nat, text: string)
    ensures var r := CloseDone(st, at, text);
            r.p == st.p && r.blocks == st.blocks && r.parens == st.parens && r.loopDo == st.loopDo && r.eol == st.eol
    decreases |st.pend|
  {
    if TopDone(st) {
      CloseDoneKeeps(st.(pend := st.pend[..|st.pend| - 1], ins := st.ins + [Insert(at, text)]), at, text);
    }
  }

  lemma {:induction false} StepAdvances(s: string, st: State)
    requires st.p < |s|
    ensures Step(s, st).p == EndAt(s, st.p)
  {
    hide EndAt, CloseDone, ShorthandAt, Blanks, TopDone;
    CloseDoneKeeps(st, if st.eol.Some? then st.eol.value else st.p, LINE_END);
    CloseDoneKeeps(st.(p := EndAt(s, st.p)), st.p, WORD_END);
    assert KindAt(s, st.p).Newline? ==> EndAt(s, st.p) == st.p + 1 by {
      OneCharTokens(s, st.p);
    }
  }

  lemma {:induction false} OneCharTokens(s: string, i: nat)
    requires i < |s|
    ensures var k := KindAt(s, i); k.Newline? || k.Open? || k.Close? || k.Symbol? ==> EndAt(s, i) == i + 1
  {
    hide LongLevel, SkipLong, SkipQuoted, NameEnd, NumberEnd, LineEnd;
  }

  lemma {:induction false} WordStepFrom(s: string, st: State, w: nat, e: nat)
    requires w < e <= |s|
    ensures WordStep(s, st.(p := e), w, e) == WordStep(s, st, w, e)
  {
    hide ShorthandAt, CloseDone;
  }

  /** The scan to the end of the text, where everything pending is closed. */
  ghost function Scan(s: string, st: State): State
    requires st.p <= |s|
    decreases |s| - st.p
  {
    if st.p == |s| then CloseAll(st, |s|)
    else
      StepAdvances(s, st);
      Scan(s, Step(s, st))
  }

  const START := State(0, 0, 0, 0, None, [], [])

  // ---------------------------------------------------------------------------
  // The scanner
  // ---------------------------------------------------------------------------

  class Scanner {
    const s: string
    var p: nat
    var blocks: nat
    var parens: nat
    var loopDo: nat
    var eol: Option<nat>
    var pend: seq<Pending>
    var ins: seq<Insert>

    constructor (s: string)
      ensures this.s == s && Now() == START
    {
      this.s := s;
      p, blocks, parens, loopDo, eol, pend, ins := 0, 0, 0, 0, None, [], [];
    }

    function Now(): State
      reads this
    {
      State(p, blocks, parens, loopDo, eol, pend, ins)
    }

    method CloseFinished(at: nat, text: string)
      modifies `pend, `ins
      ensures Now() == CloseDone(old(Now()), at, text)
    {
      while |pend| > 0 && pend[|pend| - 1].blocks == blocks && pend[|pend| - 1].parens == parens
        invariant CloseDone(old(Now()), at, text) == CloseDone(Now(), at, text)
        decreases |pend|
      {
        ins := ins + [Insert(at, text)];
        pend := pend[..|pend| - 1];
      }
    }

    method CloseRest(at: nat)
      modifies `pend, `ins
      ensures Now() == CloseAll(old(Now()), at)
    {
      while |pend| > 0
        invariant CloseAll(old(Now()), at) == CloseAll(Now(), at)
        decreases |pend|
      {
        ins := ins + [Insert(at, LINE_END)];
        pend := pend[..|pend| - 1];
      }
    }

    method FindShorthand() returns (close: Option<nat>)
      requires p <= |s|
      ensures close == ShorthandAt(s, p)
    {
      hide MatchParen;
      var q := p;
      while q < |s| && (s[q] == ' ' || s[q] == '\t')
        invariant p <= q <= |s| && Blanks(s, p) == Blanks(s, q)
      {
        q := q + 1;
      }
      if q < |s| && s[q] == '(' {
        close := FindParen(s, q + 1);
        if close.Some? && BodyFollows(s, close.value + 1) {
          return;
        }
      }
      return None;
    }

    method ScanWord(w: nat)
      requires w < p <= |s|
      modifies this
      ensures p == old(p)
      ensures Now() == WordStep(s, old(Now()), w, p)
    {
      hide ShorthandAt, CloseDone, TopDone;
      if w > 0 && (s[w - 1] == '.' || s[w - 1] == ':') {
        return;
      }
      var word := s[w..p];
      if word == "if" || word == "while" {
        var close := FindShorthand();
        if close.Some? {
          ins := ins + [Insert(close.value + 1, if word == "if" then THEN else DO)];
          pend := pend + [Pending(blocks, parens, close.value + 1)];
          return;
        }
        blocks := blocks + 1;
        if word == "while" {
          loopDo := loopDo + 1;
        }
      } else if word == "for" {
        blocks := blocks + 1;
        loopDo := loopDo + 1;
      } else if word == "do" {
        if loopDo > 0 {
          loopDo := loopDo - 1;
        } else {
          blocks := blocks + 1;
        }
      } else if word == "function" || word == "repeat" {
        blocks := blocks + 1;
      } else if word == "end" || word == "until" {
        CloseFinished(w, WORD_END);
        if blocks > 0 {
          blocks := blocks - 1;
        }
      }
    }

    method ScanToken()
      requires p < |s|
      modifies this
      ensures Now() == Step(s, old(Now()))
    {
      hide CloseDone, WordStep, Blanks, EndAt;
      var start := p;
      match KindAt(s, p)
      case Newline =>
        CloseDoneKeeps(Now(), if eol.Some? then eol.value else p, LINE_END);
        CloseFinished(if eol.Some? then eol.value else p, LINE_END);
        eol := None;
        p := p + 1;
      case Open =>
        p := SkipToken(s, p);
        parens := parens + 1;
      case Close =>
        p := SkipToken(s, p);
        if parens > 0 {
          parens := parens - 1;
        }
      case LineComment =>
        if eol.None? {
          eol := Some(p);
        }
        p := SkipToken(s, p);
      case LongComment =>
        if eol.None? {
          eol := Some(p);
        }
        p := SkipToken(s, p);
        var q := Blanks(s, p);
        if q < |s| && s[q] != '\n' {
          eol := None;
        }
      case Word =>
        WordStepFrom(s, Now(), p, EndAt(s, p));
        p := SkipToken(s, p);
        ScanWord(start);
      case _ =>
        p := SkipToken(s, p);
    }

    method ScanAll()
      requires p <= |s|
      modifies this
      ensures Now() == Scan(s, old(Now()))
    {
      hide Step, CloseAll, EndAt;
      while p < |s|
        invariant p <= |s| && Scan(s, old(Now())) == Scan(s, Now())
        decreases |s| - p
      {
        StepAdvances(s, Now());
        ScanToken();
      }
      CloseRest(p);
    }
  }
}
