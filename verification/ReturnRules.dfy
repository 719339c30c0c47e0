/** When a function counts as returning how many values, in terms of its return statements
    alone: what the counting functions amount to, written without them. */
module ReturnRules {
  import opened Options
  import opened Returns
  import opened ReturnFixpoint

  // ---------------------------------------------------------------------------
  // The returns of a function
  // ---------------------------------------------------------------------------

  /** Statement `s` is or contains `return es`; a nested function contains none of this one's. */
  ghost predicate Contains(s: Stmt, es: seq<Expr>)
    decreases s
  {
    || s == Return(es)
    || (s.If? && (exists i :: 0 <= i < |s.then_| && Contains(s.then_[i], es)))
    || (s.If? && (exists i :: 0 <= i < |s.else_| && Contains(s.else_[i], es)))
    || (s.Body? && (exists i :: 0 <= i < |s.body| && Contains(s.body[i], es)))
  }

  ghost predicate OwnReturn(body: seq<Stmt>, es: seq<Expr>) {
    exists i :: 0 <= i < |body| && Contains(body[i], es)
  }

  lemma {:induction false} OwnSteps(body: seq<Stmt>, es: seq<Expr>)
    requires |body| > 0
    ensures OwnReturn(body, es) <==> Contains(body[0], es) || OwnReturn(body[1..], es)
  {
    hide Contains;
    if OwnReturn(body, es) {
      var i :| 0 <= i < |body| && Contains(body[i], es);
      if i > 0 {
        assert Contains(body[1..][i - 1], es);
      }
    }
    if OwnReturn(body[1..], es) {
      var i :| 0 <= i < |body[1..]| && Contains(body[1..][i], es);
      assert Contains(body[i + 1], es);
    }
  }

  lemma {:induction false} ContainsWhere(s: Stmt, es: seq<Expr>)
    ensures Contains(s, es) <==>
            match s
            case Return(r) => r == es
            case If(a, b) => OwnReturn(a, es) || OwnReturn(b, es)
            case Body(b) => OwnReturn(b, es)
            case _ => false
  {}

  /** These are the returns the scans look at. */
  lemma {:induction false} OwnReturns(body: seq<Stmt>, es: seq<Expr>)
    ensures es in ReturnsOf(body) <==> OwnReturn(body, es)
  {
    if |body| > 0 {
      hide Contains, OwnReturn;
      OwnSteps(body, es);
      OwnReturnsIn(body[0], es);
      OwnReturns(body[1..], es);
    }
  }

  lemma {:induction false} OwnReturnsIn(s: Stmt, es: seq<Expr>)
    ensures es in ReturnsIn(s) <==> Contains(s, es)
  {
    hide Contains, OwnReturn, ReturnsOf;
    ContainsWhere(s, es);
    match s
    case If(a, b) => OwnReturns(a, es); OwnReturns(b, es);
    case Body(b) => OwnReturns(b, es);
    case _ =>
  }

  // ---------------------------------------------------------------------------
  // Which function a call calls
  // ---------------------------------------------------------------------------

  /** Symbol `f` is the first one named `name`. */
  ghost predicate FirstNamed(syms: seq<Symbol>, name: string, f: nat) {
    f < |syms| && syms[f].name == name && forall g :: 0 <= g < f ==> syms[g].name != name
  }

  ghost predicate Exists(syms: seq<Symbol>, name: string) {
    exists g :: 0 <= g < |syms| && syms[g].name == name
  }

  /** `q` is `p` with an underscore for every dot and colon. */
  ghost predicate Underscored(p: string, q: string) {
    |q| == |p| && forall i :: 0 <= i < |p| ==> q[i] == if p[i] in {'.', ':'} then '_' else p[i]
  }

  /** The call is known to be one of function `f`: by its name, or by a path or the path's
      underscored form when there is no symbol with the path's own name. */
  ghost predicate Calls(syms: seq<Symbol>, t: Target, f: nat) {
    f < |syms| && syms[f].isFunction &&
    match t
    case Name(name) => FirstNamed(syms, name, f)
    case Dotted(path) =>
      || FirstNamed(syms, path, f)
      || (!Exists(syms, path) && exists q :: Underscored(path, q) && FirstNamed(syms, q, f))
    case Computed => false
  }

  lemma {:induction false} FindsFirst(syms: seq<Symbol>, name: string, i: nat)
    requires i <= |syms| && forall g :: 0 <= g < i ==> syms[g].name != name
    ensures var r := Find(syms, name, i);
            if r.Some? then FirstNamed(syms, name, r.value) else !Exists(syms, name)
    decreases |syms| - i
  {
    if i < |syms| && syms[i].name != name {
      FindsFirst(syms, name, i + 1);
    }
  }

  lemma {:induction false} OneFirst(syms: seq<Symbol>, name: string, f: nat)
    ensures FirstNamed(syms, name, f) <==> Find(syms, name, 0) == Some(f)
    ensures Exists(syms, name) <==> Find(syms, name, 0).Some?
  {
    FindsFirst(syms, name, 0);
  }

  lemma {:induction false} OneUnderscored(p: string)
    ensures forall q :: Underscored(p, q) <==> q == Mangled(p)
  {}

  lemma {:induction false} CalleeIs(syms: seq<Symbol>, t: Target, f: nat)
    ensures Calls(syms, t, f) <==> Callee(syms, t) == Some(f)
  {
    hide Find, FirstNamed, Exists, Underscored, Mangled;
    match t
    case Name(name) => OneFirst(syms, name, f);
    case Dotted(path) =>
      OneFirst(syms, path, f);
      OneUnderscored(path);
      OneFirst(syms, Mangled(path), f);
    case Computed =>
  }

  // ---------------------------------------------------------------------------
  // Counts
  // ---------------------------------------------------------------------------

  /** `return es` gives at least `v` values: it lists as many, or is a single call of a function
      known to return as many. */
  ghost predicate GivesAtLeast(syms: seq<Symbol>, k: Known, es: seq<Expr>, v: nat)
    requires k.For(syms)
  {
    || |es| >= v
    || (|es| == 1 && es[0].Call? && exists f: nat :: Calls(syms, es[0].target, f) && k.counts[f] >= v)
  }

  /** A function is counted as returning `v` values or more, for any `v` above 1, exactly when
      one of its own returns gives as many. */
  lemma {:induction false} CountedExactly(syms: seq<Symbol>, k: Known, body: seq<Stmt>, v: nat)
    requires k.For(syms) && v >= 2
    ensures BodyCount(syms, k, body) >= v <==> exists es :: OwnReturn(body, es) && GivesAtLeast(syms, k, es, v)
  {
    hide OwnReturn, Callee, Calls, ReturnsOf, ReturnCount, GivesAtLeast;
    CountsReturns(syms, k, body, v);
    forall es
      ensures es in ReturnsOf(body) <==> OwnReturn(body, es)
      ensures ReturnCount(syms, k, es) >= v <==> GivesAtLeast(syms, k, es, v)
    {
      OwnReturns(body, es);
      GivesCount(syms, k, es, v);
    }
  }

  lemma {:induction false} GivesCount(syms: seq<Symbol>, k: Known, es: seq<Expr>, v: nat)
    requires k.For(syms) && v >= 2
    ensures ReturnCount(syms, k, es) >= v <==> GivesAtLeast(syms, k, es, v)
  {
    hide Callee, Calls;
    if |es| == 1 && es[0].Call? {
      forall f: nat
        ensures Calls(syms, es[0].target, f) <==> Callee(syms, es[0].target) == Some(f)
      {
        CalleeIs(syms, es[0].target, f);
      }
    }
  }

  // ---------------------------------------------------------------------------
  // Tails of several values
  // ---------------------------------------------------------------------------

  /** The compiler's own mouse functions, when the program has no `mouse` of its own. */
  ghost predicate MouseCall(syms: seq<Symbol>, path: string) {
    !Exists(syms, "mouse") && path in {"mouse", "mouse.delta", "mouse.position"}
  }

  ghost predicate Library(lib: string) {
    lib in {"math.", "string.", "table.", "os.", "io.", "gpu.", "spu.", "inp.", "mem.", "tim.", "tilemap.", "ioports.",
            "coroutine.", "kbd."}
  }

  /** The path starts with the name of a library whose functions return one value. */
  ghost predicate LibraryCall(path: string) {
    exists lib :: Library(lib) && lib <= path
  }

  /** The function called is looked up by name, or by a path that is not a method's. */
  ghost predicate KnownCall(syms: seq<Symbol>, e: Expr, f: nat) {
    e.Call? && (e.target.Dotted? ==> !e.method_) && Calls(syms, e.target, f)
  }

  /** An expression at the end of a list that may stand for several values: all of `...`, an
      unpacked table, a function known to return several, or a call nothing is known about. */
  ghost predicate Several(syms: seq<Symbol>, k: Known, e: Expr)
    requires k.For(syms)
  {
    || e == Vararg(0)
    || (e.Call? && e.unpack)
    || (exists f: nat :: KnownCall(syms, e, f) && (k.counts[f] >= 2 || k.mv[f]))
    || (e.Call? && (forall f: nat :: !KnownCall(syms, e, f)) &&
        match e.target
        case Name(name) => Exists(syms, name) || MouseCall(syms, name)
        case Computed => true
        case Dotted(path) => e.method_ || MouseCall(syms, path) || !LibraryCall(path))
  }

  lemma {:induction false} LibrariesAre(path: string)
    ensures LibraryCall(path) <==> exists i :: 0 <= i < |LIBRARIES| && LIBRARIES[i] <= path
  {
    assert forall i :: 0 <= i < |LIBRARIES| ==> Library(LIBRARIES[i]);
    if LibraryCall(path) {
      var lib :| Library(lib) && lib <= path;
      assert lib in LIBRARIES;
    }
  }

  lemma {:induction false} TailIs(syms: seq<Symbol>, k: Known, e: Expr)
    requires k.For(syms)
    ensures Tail(syms, k, e) <==> Several(syms, k, e)
  {
    hide Callee, Calls, LibraryCall, Find, Exists;
    if e.Call? {
      forall f: nat
        ensures Calls(syms, e.target, f) <==> Callee(syms, e.target) == Some(f)
      {
        CalleeIs(syms, e.target, f);
      }
      var c := Callee(syms, e.target);
      assert c.Some? ==> Calls(syms, e.target, c.value);
      if c.Some? && !(e.target.Dotted? && e.method_) {
        assert KnownCall(syms, e, c.value);
        assert forall f: nat :: KnownCall(syms, e, f) ==> f == c.value;
      } else {
        assert forall f: nat :: !KnownCall(syms, e, f);
      }
      OneFirst(syms, "mouse", 0);
      if e.target.Name? {
        OneFirst(syms, e.target.name, 0);
      } else if e.target.Dotted? {
        LibrariesAre(e.target.path);
      }
    }
  }

  /** A function is marked as returning several values exactly when one of its own returns ends
      in such an expression. */
  lemma {:induction false} MarkedExactly(syms: seq<Symbol>, k: Known, body: seq<Stmt>)
    requires k.For(syms)
    ensures BodyMany(syms, k, body) <==>
            exists es :: OwnReturn(body, es) && |es| > 0 && Several(syms, k, es[|es| - 1])
  {
    hide OwnReturn, ReturnsOf, Tail, Several;
    ManyReturns(syms, k, body);
    forall es
      ensures es in ReturnsOf(body) <==> OwnReturn(body, es)
      ensures ReturnMany(syms, k, es) <==> |es| > 0 && Several(syms, k, es[|es| - 1])
    {
      OwnReturns(body, es);
      if |es| > 0 {
        TailIs(syms, k, es[|es| - 1]);
      }
    }
  }

  // ---------------------------------------------------------------------------
  // After settling
  // ---------------------------------------------------------------------------

  /** What settling leaves behind, for up to 64 functions defined in any order: a function is
      counted as returning `v` values or more exactly when one of its own returns gives as many
      by the final counts, and marked exactly when one ends in an expression that may be
      several. */
  lemma {:induction false} SettledExactly(syms: seq<Symbol>, native: seq<nat>, order: seq<nat>, f: nat, v: nat)
    requires |native| == |syms| && |Functions(syms)| <= MAX_PASSES
    requires Definitions(syms, order) && forall g :: g in Functions(syms) ==> g in order
    requires f < |syms| && syms[f].Recounted() && v >= 2
    ensures var k := Passes(syms, Prepass(syms, Unknown(syms, native), order), MAX_PASSES);
            && (k.counts[f] >= v <==>
                  exists es :: OwnReturn(syms[f].def.value, es) && GivesAtLeast(syms, k, es, v))
            && (k.mv[f] <==>
                  exists es :: OwnReturn(syms[f].def.value, es) && |es| > 0 && Several(syms, k, es[|es| - 1]))
  {
    hide OwnReturn, GivesAtLeast, Several, BodyCount, BodyMany, Passes, Prepass, Least, Functions, Definitions;
    var k := Passes(syms, Prepass(syms, Unknown(syms, native), order), MAX_PASSES);
    SettlesToLeast(syms, native, order);
    LeastIsFixpoint(syms, k);
    assert All(syms, k).counts[f] == k.counts[f] && All(syms, k).mv[f] == k.mv[f];
    CountedExactly(syms, k, syms[f].def.value, v);
    MarkedExactly(syms, k, syms[f].def.value);
  }
}
