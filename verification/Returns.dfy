/** How many values each global function returns: the scan of one body, and the passes that
    recount all functions until nothing changes. */
module Returns {
  import opened Numbers
  import opened Options

  /** What a call calls: a plain name, a dotted path that is known statically, or a value
      computed at run time. */
  datatype Target = Name(name: string) | Dotted(path: string) | Computed

  datatype Expr = Call(target: Target, method_: bool, unpack: bool) | Vararg(index: nat) | Single

  /** A statement as far as returns are concerned; `Body` stands for every statement with one
      body that is not a function (while, repeat, both for loops, do). */
  datatype Stmt = Return(exprs: seq<Expr>) | If(then_: seq<Stmt>, else_: seq<Stmt>) | Body(body: seq<Stmt>) |
                  FunctionDef(inner: seq<Stmt>) | Other

  /** A global symbol. A function without a definition is a native one. */
  datatype Symbol = Symbol(name: string, isFunction: bool, def: Option<seq<Stmt>>) {
    predicate Recounted() {
      isFunction && def.Some?
    }
  }

  /** What is known about every symbol, by position in the list of symbols. */
  datatype Known = Known(counts: seq<nat>, mv: seq<bool>) {
    predicate For(syms: seq<Symbol>) {
      |counts| == |mv| == |syms|
    }
  }

  // ---------------------------------------------------------------------------
  // Resolving a call
  // ---------------------------------------------------------------------------

  /** The first symbol with this name, from position `i` on. */
  function Find(syms: seq<Symbol>, name: string, i: nat): (r: Option<nat>)
    requires i <= |syms|
    ensures r.Some? ==> i <= r.value < |syms| && syms[r.value].name == name
    decreases |syms| - i
  {
    if i == |syms| then None
    else if syms[i].name == name then Some(i)
    else Find(syms, name, i + 1)
  }

  function Mangled(path: string): string {
    seq(|path|, i requires 0 <= i < |path| => if path[i] == '.' || path[i] == ':' then '_' else path[i])
  }

  function FindDotted(syms: seq<Symbol>, path: string): (r: Option<nat>)
    ensures r.Some? ==> r.value < |syms|
  {
    if Find(syms, path, 0).Some? then Find(syms, path, 0) else Find(syms, Mangled(path), 0)
  }

  /** The function a call is known to call. */
  function Callee(syms: seq<Symbol>, t: Target): (r: Option<nat>)
    ensures r.Some? ==> r.value < |syms| && syms[r.value].isFunction
  {
    var s := match t
      case Name(name) => Find(syms, name, 0)
      case Dotted(path) => FindDotted(syms, path)
      case Computed => None;
    if s.Some? && syms[s.value].isFunction then s else None
  }

  const LIBRARIES: seq<string> := ["math.", "string.", "table.", "os.", "io.", "gpu.", "spu.", "inp.", "mem.", "tim.",
                                   "tilemap.", "ioports.", "coroutine.", "kbd."]

  /** The mouse intrinsics that return several values, unless the program has its own mouse. */
  predicate MouseValues(syms: seq<Symbol>, path: string) {
    Find(syms, "mouse", 0).None? && (path == "mouse" || path == "mouse.delta" || path == "mouse.position")
  }

  /** Whether a call to no known function may return several values. */
  predicate MayBeSeveral(syms: seq<Symbol>, t: Target, method_: bool) {
    match t
    case Name(name) => Find(syms, name, 0).Some? || MouseValues(syms, name)
    case Computed => true
    case Dotted(path) =>
      method_ || MouseValues(syms, path) || !exists i :: 0 <= i < |LIBRARIES| && LIBRARIES[i] <= path
  }

  // ---------------------------------------------------------------------------
  // One body
  // ---------------------------------------------------------------------------

  /** How many values `return es` may return. */
  function ReturnCount(syms: seq<Symbol>, k: Known, es: seq<Expr>): nat
    requires k.For(syms)
  {
    if |es| == 1 && es[0].Call? && Callee(syms, es[0].target).Some? then
      Max(1, k.counts[Callee(syms, es[0].target).value])
    else |es|
  }

  /** Whether the last of several values may be more than one. */
  predicate Tail(syms: seq<Symbol>, k: Known, e: Expr)
    requires k.For(syms)
  {
    match e
    case Single => false
    case Vararg(index) => index == 0
    case Call(t, method_, unpack) =>
      unpack ||
      if Callee(syms, t).Some? && !(t.Dotted? && method_) then
        k.counts[Callee(syms, t).value] > 1 || k.mv[Callee(syms, t).value]
      else MayBeSeveral(syms, t, method_)
  }

  predicate ReturnMany(syms: seq<Symbol>, k: Known, es: seq<Expr>)
    requires k.For(syms)
  {
    |es| > 0 && Tail(syms, k, es[|es| - 1])
  }

  function BodyCount(syms: seq<Symbol>, k: Known, body: seq<Stmt>): (n: nat)
    requires k.For(syms)
    ensures n >= 1
  {
    if |body| == 0 then 1
    else Max(StmtCount(syms, k, body[0]), BodyCount(syms, k, body[1..]))
  }

  function StmtCount(syms: seq<Symbol>, k: Known, s: Stmt): (n: nat)
    requires k.For(syms)
    ensures n >= 1
  {
    match s
    case Return(es) => Max(1, ReturnCount(syms, k, es))
    case If(a, b) => Max(BodyCount(syms, k, a), BodyCount(syms, k, b))
    case Body(b) => BodyCount(syms, k, b)
    case _ => 1
  }

  predicate BodyMany(syms: seq<Symbol>, k: Known, body: seq<Stmt>)
    requires k.For(syms)
  {
    |body| > 0 && (StmtMany(syms, k, body[0]) || BodyMany(syms, k, body[1..]))
  }

  predicate StmtMany(syms: seq<Symbol>, k: Known, s: Stmt)
    requires k.For(syms)
  {
    match s
    case Return(es) => ReturnMany(syms, k, es)
    case If(a, b) => BodyMany(syms, k, a) || BodyMany(syms, k, b)
    case Body(b) => BodyMany(syms, k, b)
    case _ => false
  }

  /** The returns of a function with this body: those in nested blocks, not those of nested
      functions. */
  ghost function ReturnsOf(body: seq<Stmt>): set<seq<Expr>> {
    if |body| == 0 then {} else ReturnsIn(body[0]) + ReturnsOf(body[1..])
  }

  ghost function ReturnsIn(s: Stmt): set<seq<Expr>> {
    match s
    case Return(es) => {es}
    case If(a, b) => ReturnsOf(a) + ReturnsOf(b)
    case Body(b) => ReturnsOf(b)
    case _ => {}
  }

  /** A body returns at least `v` values when one of its returns does. */
  lemma {:induction false} CountsReturns(syms: seq<Symbol>, k: Known, body: seq<Stmt>, v: nat)
    requires k.For(syms) && v >= 2
    ensures BodyCount(syms, k, body) >= v <==>
            exists es :: es in ReturnsOf(body) && ReturnCount(syms, k, es) >= v
  {
    hide ReturnCount;
    if |body| > 0 {
      CountsReturns(syms, k, body[1..], v);
      CountsReturnsIn(syms, k, body[0], v);
    }
  }

  lemma {:induction false} CountsReturnsIn(syms: seq<Symbol>, k: Known, s: Stmt, v: nat)
    requires k.For(syms) && v >= 2
    ensures StmtCount(syms, k, s) >= v <==>
            exists es :: es in ReturnsIn(s) && ReturnCount(syms, k, es) >= v
  {
    hide ReturnCount;
    match s
    case If(a, b) =>
      CountsReturns(syms, k, a, v);
      CountsReturns(syms, k, b, v);
    case Body(b) =>
      CountsReturns(syms, k, b, v);
    case Return(es) =>
      assert es in ReturnsIn(s);
    case _ =>
  }

  lemma {:induction false} ManyReturns(syms: seq<Symbol>, k: Known, body: seq<Stmt>)
    requires k.For(syms)
    ensures BodyMany(syms, k, body) <==> exists es :: es in ReturnsOf(body) && ReturnMany(syms, k, es)
  {
    hide ReturnMany;
    if |body| > 0 {
      ManyReturns(syms, k, body[1..]);
      ManyReturnsIn(syms, k, body[0]);
    }
  }

  lemma {:induction false} ManyReturnsIn(syms: seq<Symbol>, k: Known, s: Stmt)
    requires k.For(syms)
    ensures StmtMany(syms, k, s) <==> exists es :: es in ReturnsIn(s) && ReturnMany(syms, k, es)
  {
    hide ReturnMany;
    match s
    case If(a, b) =>
      ManyReturns(syms, k, a);
      ManyReturns(syms, k, b);
    case Body(b) =>
      ManyReturns(syms, k, b);
    case Return(es) =>
      assert es in ReturnsIn(s);
    case _ =>
  }

  /** The scan for the largest number of returned values. */
  method CountMaxReturnValues(syms: seq<Symbol>, k: Known, body: seq<Stmt>) returns (n: nat)
    requires k.For(syms)
    ensures n == BodyCount(syms, k, body)
    decreases body
  {
    hide ReturnCount, Callee;
    n := 1;
    assert body[0..] == body;
    for i := 0 to |body|
      invariant n >= 1
      invariant BodyCount(syms, k, body) == Max(n, BodyCount(syms, k, body[i..]))
    {
      var s := body[i];
      assert body[i..][1..] == body[i + 1..];
      match s
      case Return(es) =>
        n := Max(n, ReturnCount(syms, k, es));
      case If(a, b) =>
        var x := CountMaxReturnValues(syms, k, a);
        var y := CountMaxReturnValues(syms, k, b);
        n := Max(Max(n, x), y);
      case Body(b) =>
        var x := CountMaxReturnValues(syms, k, b);
        n := Max(n, x);
      case _ =>
    }
  }

  method BodyReturnsMany(syms: seq<Symbol>, k: Known, body: seq<Stmt>) returns (many: bool)
    requires k.For(syms)
    ensures many == BodyMany(syms, k, body)
    decreases body
  {
    hide Tail, Callee;
    assert body[0..] == body;
    for i := 0 to |body|
      invariant BodyMany(syms, k, body) == BodyMany(syms, k, body[i..])
    {
      var s := body[i];
      assert body[i..][1..] == body[i + 1..];
      match s
      case Return(es) =>
        if ReturnMany(syms, k, es) {
          return true;
        }
      case If(a, b) =>
        many := BodyReturnsMany(syms, k, a);
        if !many {
          many := BodyReturnsMany(syms, k, b);
        }
        if many {
          return;
        }
      case Body(b) =>
        many := BodyReturnsMany(syms, k, b);
        if many {
          return;
        }
      case _ =>
    }
    return false;
  }

  // ---------------------------------------------------------------------------
  // The passes
  // ---------------------------------------------------------------------------

  /** One symbol recounted with what is known now. */
  function Recount(syms: seq<Symbol>, k: Known, f: nat): (r: Known)
    requires k.For(syms) && f < |syms|
    ensures r.For(syms)
  {
    if syms[f].Recounted() then
      var body := syms[f].def.value;
      var counted := Known(k.counts[f := Max(k.counts[f], BodyCount(syms, k, body))], k.mv);
      Known(counted.counts, k.mv[f := k.mv[f] || BodyMany(syms, counted, body)])
    else k
  }

  /** A pass from symbol `f` on: each symbol sees what became known before it in the same
      pass. */
  function Pass(syms: seq<Symbol>, k: Known, f: nat): (r: Known)
    requires k.For(syms) && f <= |syms|
    ensures r.For(syms)
    decreases |syms| - f
  {
    if f == |syms| then k else Pass(syms, Recount(syms, k, f), f + 1)
  }

  function Passes(syms: seq<Symbol>, k: Known, n: nat): (r: Known)
    requires k.For(syms)
    ensures r.For(syms)
  {
    if n == 0 then k else Pass(syms, Passes(syms, k, n - 1), 0)
  }

  const MAX_PASSES := 64

  /** The global symbols and what is known about their returns. */
  class Globals {
    const symbols: seq<Symbol>
    var counts: seq<nat>
    var mv: seq<bool>

    /** Symbols as the prepass creates them: nothing is known about functions with a
        definition, native ones come with their count. */
    constructor (symbols: seq<Symbol>, native: seq<nat>)
      requires |native| == |symbols|
      ensures this.symbols == symbols && Knows() == Unknown(symbols, native)
    {
      this.symbols := symbols;
      counts := Unknown(symbols, native).counts;
      mv := Unknown(symbols, native).mv;
    }

    function Knows(): Known
      reads this
    {
      Known(counts, mv)
    }

    ghost predicate Valid()
      reads this
    {
      Knows().For(symbols)
    }

    /** The definition of a function is reached: its body is counted once. */
    method MarkAsFunction(f: nat)
      requires Valid() && f < |symbols| && symbols[f].Recounted()
      modifies `counts
      ensures Valid() && Knows() == Marked(symbols, old(Knows()), f)
    {
      hide BodyCount;
      var n := CountMaxReturnValues(symbols, Knows(), symbols[f].def.value);
      counts := counts[f := n];
    }

    /** Recounts all functions until nothing changes, in at most 64 passes. */
    method SettleReturnCounts()
      requires Valid()
      modifies `counts, `mv
      ensures Valid() && Knows() == Passes(symbols, old(Knows()), MAX_PASSES)
    {
      hide Pass;
      var changed := true;
      var pass := 0;
      while changed && pass < MAX_PASSES
        invariant pass <= MAX_PASSES && Valid() && Knows() == Passes(symbols, old(Knows()), pass)
        invariant changed || Pass(symbols, Knows(), 0) == Knows()
        decreases MAX_PASSES - pass
      {
        changed := OnePass();
        pass := pass + 1;
      }
      if !changed {
        StaysSettled(symbols, old(Knows()), pass, MAX_PASSES);
      }
    }

    method OnePass() returns (changed: bool)
      requires Valid()
      modifies `counts, `mv
      ensures Valid() && Knows() == Pass(symbols, old(Knows()), 0)
      ensures !changed ==> Knows() == old(Knows())
    {
      hide BodyCount, BodyMany;
      changed := false;
      for f := 0 to |symbols|
        invariant Valid() && Pass(symbols, old(Knows()), 0) == Pass(symbols, Knows(), f)
        invariant !changed ==> Knows() == old(Knows())
      {
        ghost var before := Knows();
        if symbols[f].Recounted() {
          var n := CountMaxReturnValues(symbols, Knows(), symbols[f].def.value);
          if n > counts[f] {
            counts := counts[f := n];
            changed := true;
          }
          if !mv[f] {
            var many := BodyReturnsMany(symbols, Knows(), symbols[f].def.value);
            if many {
              mv := mv[f := true];
              changed := true;
            }
          }
          ghost var after := Recount(symbols, before, f);
          assert counts == before.counts[f := Max(before.counts[f], n)] == after.counts;
          assert mv == after.mv;
        }
      }
    }
  }

  function Unknown(syms: seq<Symbol>, native: seq<nat>): (r: Known)
    requires |native| == |syms|
    ensures r.For(syms)
  {
    Known(seq(|syms|, i requires 0 <= i < |syms| => if syms[i].Recounted() then 0 else native[i]),
          seq(|syms|, i => false))
  }

  function Marked(syms: seq<Symbol>, k: Known, f: nat): (r: Known)
    requires k.For(syms) && f < |syms| && syms[f].Recounted()
    ensures r.For(syms)
  {
    Known(k.counts[f := BodyCount(syms, k, syms[f].def.value)], k.mv)
  }

  lemma {:induction false} StaysSettled(syms: seq<Symbol>, k: Known, n: nat, m: nat)
    requires k.For(syms) && n <= m && Pass(syms, Passes(syms, k, n), 0) == Passes(syms, k, n)
    ensures Passes(syms, k, m) == Passes(syms, k, n)
    decreases m
  {
    hide Pass;
    if n < m {
      StaysSettled(syms, k, n, m - 1);
    }
  }
}
