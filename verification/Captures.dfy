/** The capture analysis: one walk that keeps, per open function, the names bound in it and
    the free names already looked up, and fills in what each function captures. */
module CaptureAnalysis {
  import opened Closures

  /** A list of names without repetitions, most recent first. */
  function Add(list: seq<string>, name: string): seq<string> {
    if name in list then list else [name] + list
  }

  /** One open function: its identity, the names bound in it now, the free names seen. */
  datatype Frame = Frame(fid: nat, bound: seq<string>, free: seq<string>)

  ghost predicate Distinct(list: seq<string>) {
    forall i, j :: 0 <= i < j < |list| ==> list[i] != list[j]
  }

  ghost predicate AllDistinct(m: map<nat, seq<string>>) {
    forall f :: f in m ==> Distinct(m[f])
  }

  function Names(m: map<nat, seq<string>>, fid: nat): seq<string> {
    if fid in m then m[fid] else []
  }

  ghost function RecordedIn(upvalues: map<nat, seq<string>>, boxed: map<nat, seq<string>>): set<Fact> {
    (set f, n | f in upvalues && n in upvalues[f] :: Up(f, n)) + (set f, n | f in boxed && n in boxed[f] :: Boxed(f, n))
  }

  /** What the first free use of `name` in the function at level `k` captures. It depends on
      the functions below `k` only, and those do not change while level `k` is analysed. */
  ghost function MissFacts(env: Env, k: nat, name: string): set<Fact>
    requires k < |env|
  {
    if k == 0 || Owner(env, k - 1, name) == 0 then {} else ChainFacts(env, Owner(env, k - 1, name), k, name)
  }

  /** Two environments that differ at most in the blocks of the innermost function. */
  ghost predicate SameBelow(env: Env, env': Env) {
    |env'| == |env| && env'[..|env| - 1] == env[..|env| - 1] && env'[|env| - 1].fid == env[|env| - 1].fid
  }

  lemma {:induction false} OwnerFrozen(env: Env, env': Env, k: nat, name: string)
    requires k < |env| && k < |env'| && env[..k + 1] == env'[..k + 1]
    ensures Owner(env, k, name) == Owner(env', k, name)
  {
    assert env[k] == env[..k + 1][k] == env'[k];
    if k > 0 {
      assert env[..k] == env[..k + 1][..k] == env'[..k];
      OwnerFrozen(env, env', k - 1, name);
    }
  }

  /** The memo of free names stays valid: opening and closing blocks in the innermost
      function changes nothing a free name of any open function resolves to. */
  lemma {:induction false} MissFrozen(env: Env, env': Env, k: nat, name: string)
    requires k < |env| && k < |env'| && env[..k] == env'[..k] && env[k].fid == env'[k].fid
    ensures MissFacts(env, k, name) == MissFacts(env', k, name)
  {
    if k > 0 {
      OwnerFrozen(env, env', k - 1, name);
      forall m | 0 <= m < k
        ensures env[m] == env'[m]
      {
        assert env[m] == env[..k][m] && env'[m] == env'[..k][m];
      }
    }
  }

  /** A use of a name that is not bound in its own function is such a free use. */
  lemma {:induction false} UseIsMiss(env: Env, name: string)
    ensures var top := |env| - 1;
            UseFacts(env, name) == if Visible(env[top], name) then {} else MissFacts(env, top, name)
  {}

  lemma {:induction false} CapturesUnion(a: set<Use>, b: set<Use>)
    ensures Captures(a + b) == Captures(a) + Captures(b)
  {}

  lemma {:induction false} CapturesOne(env: Env, name: string)
    ensures Captures({Use(env, name)}) == UseFacts(env, name)
  {}

  /** The names of a frame are those its function's blocks have in scope. */
  ghost predicate Fits(bound: seq<string>, l: Level) {
    forall n :: n in bound <==> Visible(l, n)
  }

  /** The frames mirror the environment, and every remembered free name has been recorded. */
  ghost predicate Mirrors(frames: seq<Frame>, recorded: set<Fact>, env: Env) {
    && |frames| == |env|
    && (forall k :: 0 <= k < |env| ==> frames[k].fid == env[k].fid)
    && (forall k :: 0 <= k < |env| ==> Fits(frames[k].bound, env[k]))
    && (forall k, n :: 0 <= k < |env| && n in frames[k].free ==> MissFacts(env, k, n) <= recorded)
  }

  class Analyzer {
    var frames: seq<Frame>
    var upvalues: map<nat, seq<string>>
    var boxed: map<nat, seq<string>>

    constructor ()
      ensures Tracks(ChunkEnv()) && Recorded() == {}
      ensures upvalues == map[] && boxed == map[]
    {
      frames := [Frame(0, [], [])];
      upvalues, boxed := map[], map[];
    }

    ghost function Recorded(): set<Fact>
      reads `upvalues, `boxed
    {
      RecordedIn(upvalues, boxed)
    }

    ghost predicate Tracks(env: Env)
      reads this
    {
      Mirrors(frames, Recorded(), env) && AllDistinct(upvalues) && AllDistinct(boxed)
    }

    /** Records `name` as an upvalue of function `fid`. */
    method AddUpvalue(fid: nat, name: string)
      requires AllDistinct(upvalues)
      modifies `upvalues
      ensures AllDistinct(upvalues)
      ensures Recorded() == old(Recorded()) + {Up(fid, name)}
    {
      upvalues := upvalues[fid := Add(Names(upvalues, fid), name)];
    }

    method AddBoxed(fid: nat, name: string)
      requires AllDistinct(boxed)
      modifies `boxed
      ensures AllDistinct(boxed)
      ensures Recorded() == old(Recorded()) + {Boxed(fid, name)}
    {
      boxed := boxed[fid := Add(Names(boxed, fid), name)];
    }

    /** Looks a free name of the innermost function up in the functions around it. */
    method ResolveCapture(name: string, ghost env: Env)
      requires Tracks(env)
      modifies `upvalues, `boxed
      ensures AllDistinct(upvalues) && AllDistinct(boxed)
      ensures Recorded() == old(Recorded()) + MissFacts(env, |env| - 1, name)
    {
      hide RecordedIn, ChainFacts, Visible;
      var origin := |frames| - 1;
      var search := origin - 1;
      while search > 0
        invariant -1 <= search < |frames|
        invariant search >= 0 ==> Owner(env, origin - 1, name) == Owner(env, search, name)
        invariant search < 0 ==> origin == 0
        invariant Recorded() == old(Recorded()) && AllDistinct(upvalues) && AllDistinct(boxed)
      {
        if name in frames[search].bound {
          Capture(search, name, env);
          return;
        }
        search := search - 1;
      }
    }

    /** Boxes `name` in the function at level `owner` and threads it down to the innermost one. */
    method Capture(owner: nat, name: string, ghost env: Env)
      requires |frames| == |env| > owner && forall k :: 0 <= k < |env| ==> frames[k].fid == env[k].fid
      requires AllDistinct(upvalues) && AllDistinct(boxed)
      modifies `upvalues, `boxed
      ensures AllDistinct(upvalues) && AllDistinct(boxed)
      ensures Recorded() == old(Recorded()) + ChainFacts(env, owner, |env| - 1, name)
    {
      hide RecordedIn;
      AddBoxed(frames[owner].fid, name);
      var f := |frames| - 1;
      while f != owner
        invariant owner <= f < |frames| && AllDistinct(upvalues) && AllDistinct(boxed)
        invariant Recorded() == old(Recorded()) + {Boxed(env[owner].fid, name)} +
                                set m | f < m <= |env| - 1 :: Up(env[m].fid, name)
      {
        AddUpvalue(frames[f].fid, name);
        f := f - 1;
      }
    }

    /** One use of a name in the innermost function. */
    method AnalyzeUse(name: string, ghost env: Env)
      requires Tracks(env)
      modifies this
      ensures Kept(old(frames), frames) && Tracks(env)
      ensures Recorded() == old(Recorded()) + UseFacts(env, name)
    {
      hide RecordedIn, MissFacts, UseFacts, Mirrors;
      var top := |frames| - 1;
      ghost var r := Recorded();
      MirrorsTop(frames, r, env);
      UseIsMiss(env, name);
      if name in frames[top].bound {
        return;
      }
      if name !in frames[top].free {
        MirrorsMiss(frames, r, env, name);
        ResolveCapture(name, env);
        frames := frames[top := frames[top].(free := Add(frames[top].free, name))];
      }
    }

    /** An expression: uses in evaluation order, nested functions in a frame of their own. */
    method AnalyzeExpr(e: Expr, ghost env: Env)
      requires Tracks(env)
      modifies this
      ensures Kept(old(frames), frames) && Tracks(env)
      ensures Recorded() == old(Recorded()) + Captures(ExprUses(e, env, false))
      decreases e
    {
      hide RecordedIn, Mirrors, EnterFunction, AfterBlock, BlockUses, ExprsUses, UseFacts, Captures, Fits, MissFacts;
      MirrorsTop(frames, Recorded(), env);
      match e
      case Id(name) =>
        CapturesOne(env, name);
        AnalyzeUse(name, env);
      case Leaf =>
        CapturesNone();
      case Compound(parts) =>
        AnalyzeExprs(parts, env);
      case Function(id, params, body) =>
        ghost var outer := frames;
        ghost var inner := EnterFunction(env, id, params);
        var bound := ParamNames(params);
        EnterFunctionPrefix(env, id, params);
        MirrorsPush(frames, Recorded(), env, id, params, bound);
        frames := frames + [Frame(id, bound, [])];
        AnalyzeBlock(body, inner);
        AfterBlockSame(inner, body);
        assert frames[..|env|] == outer;
        MirrorsPop(outer, frames, Recorded(), env, AfterBlock(inner, body));
        frames := frames[..|frames| - 1];
    }

    method AnalyzeExprs(es: seq<Expr>, ghost env: Env)
      requires Tracks(env)
      modifies this
      ensures Kept(old(frames), frames) && Tracks(env)
      ensures Recorded() == old(Recorded()) + Captures(ExprsUses(es, env, false))
      decreases es, 0
    {
      hide RecordedIn, Mirrors, ExprUses, Captures, Fits, MissFacts;
      MirrorsTop(frames, Recorded(), env);
      ghost var before, r := frames, Recorded();
      ghost var seen: set<Use> := {};
      CapturesNone();
      assert es[0..] == es;
      for i := 0 to |es|
        invariant Kept(before, frames) && Tracks(env)
        invariant ExprsUses(es, env, false) == seen + ExprsUses(es[i..], env, false)
        invariant Recorded() == r + Captures(seen)
      {
        CapturesUnion(seen, ExprUses(es[i], env, false));
        AnalyzeExpr(es[i], env);
        seen := seen + ExprUses(es[i], env, false);
        assert es[i..][1..] == es[i + 1..];
      }
    }

    /** The left-hand sides of an assignment, after its right-hand sides. */
    method AnalyzeTargets(isLocal: bool, ts: seq<Expr>, ghost env: Env)
      requires Tracks(env)
      modifies this
      ensures KeptBelow(old(frames), frames)
      ensures Tracks(if isLocal then DeclareTargets(env, ts) else env)
      ensures Recorded() == old(Recorded()) + Captures(TargetsUses(isLocal, ts, env, false))
      decreases ts
    {
      hide RecordedIn, Mirrors, ExprUses, Captures, Declare, UseFacts, Fits, MissFacts;
      MirrorsTop(frames, Recorded(), env);
      ghost var before, r := frames, Recorded();
      ghost var seen: set<Use> := {};
      ghost var now := env;
      CapturesNone();
      assert ts[0..] == ts;
      for i := 0 to |ts|
        invariant KeptBelow(before, frames) && Tracks(now)
        invariant if isLocal then DeclareTargets(env, ts) == DeclareTargets(now, ts[i..]) else now == env
        invariant TargetsUses(isLocal, ts, env, false) == seen + TargetsUses(isLocal, ts[i..], now, false)
        invariant Recorded() == r + Captures(seen)
      {
        assert ts[i..][0] == ts[i] && ts[i..][1..] == ts[i + 1..];
        if isLocal && ts[i].Id? {
          Bind(ts[i].name, now);
          now := Declare(now, ts[i].name);
        } else {
          CapturesUnion(seen, ExprUses(ts[i], now, false));
          AnalyzeExpr(ts[i], now);
          seen := seen + ExprUses(ts[i], now, false);
        }
      }
    }

    /** Brings `name` into scope in the innermost function. */
    method Bind(name: string, ghost env: Env)
      requires Tracks(env)
      modifies `frames
      ensures KeptBelow(old(frames), frames) && Tracks(Declare(env, name))
    {
      MirrorsDeclare(frames, Recorded(), env, name);
      hide RecordedIn, Mirrors, Declare;
      var top := |frames| - 1;
      frames := frames[top := frames[top].(bound := Add(frames[top].bound, name))];
    }

    /** A nested block: the names it bound go out of scope again. */
    method AnalyzeNested(body: seq<Stmt>, ghost env: Env)
      requires Tracks(env)
      modifies this
      ensures Kept(old(frames), frames) && Tracks(env)
      ensures Recorded() == old(Recorded()) + Captures(BlockUses(body, Enter(env), false))
      decreases body, 1
    {
      hide RecordedIn, Mirrors, BlockUses, Captures, AfterBlock, Enter, Fits, MissFacts;
      MirrorsTop(frames, Recorded(), env);
      var top := |frames| - 1;
      var saved := frames[top].bound;
      ghost var outer := frames;
      MirrorsEnter(frames, Recorded(), env);
      AnalyzeBlock(body, Enter(env));
      AfterBlockSame(Enter(env), body);
      EnterSame(env);
      MirrorsLeave(outer, frames, Recorded(), env, AfterBlock(Enter(env), body));
      frames := frames[top := frames[top].(bound := saved)];
    }

    /** A loop body that sees the loop's own variables. */
    method AnalyzeLoop(vars: seq<string>, body: seq<Stmt>, ghost env: Env)
      requires Tracks(env)
      modifies this
      ensures Kept(old(frames), frames) && Tracks(env)
      ensures Recorded() == old(Recorded()) + Captures(BlockUses(body, DeclareAll(Enter(env), vars), false))
      decreases body, 1
    {
      hide RecordedIn, Mirrors, BlockUses, Captures, AfterBlock, Enter, Declare, Fits, MissFacts;
      MirrorsTop(frames, Recorded(), env);
      var top := |frames| - 1;
      var saved := frames[top].bound;
      ghost var outer := frames;
      MirrorsEnter(frames, Recorded(), env);
      ghost var now := Enter(env);
      ghost var inner := DeclareAll(now, vars);
      assert vars[0..] == vars;
      for i := 0 to |vars|
        invariant KeptBelow(outer, frames) && Tracks(now)
        invariant Recorded() == old(Recorded())
        invariant DeclareAll(now, vars[i..]) == inner
      {
        assert vars[i..][0] == vars[i] && vars[i..][1..] == vars[i + 1..];
        Bind(vars[i], now);
        now := Declare(now, vars[i]);
      }
      AnalyzeBlock(body, inner);
      EnterSame(env);
      DeclareAllSame(Enter(env), vars);
      AfterBlockSame(inner, body);
      MirrorsLeave(outer, frames, Recorded(), env, AfterBlock(inner, body));
      frames := frames[top := frames[top].(bound := saved)];
    }

    /** A repeat loop: its condition sees the names its body bound. */
    method AnalyzeRepeat(s: Stmt, ghost env: Env)
      requires Tracks(env) && s.Repeat?
      modifies this
      ensures Kept(old(frames), frames) && Tracks(env)
      ensures Recorded() == old(Recorded()) + Captures(StmtUses(s, env, false))
      decreases s, 0
    {
      var body, cond := s.body, s.cond;
      hide RecordedIn, Mirrors, BlockUses, ExprUses, Captures, AfterBlock, Enter, Fits, MissFacts;
      hide StmtUses, After;
      RepeatUses(body, cond, env);
      MirrorsTop(frames, Recorded(), env);
      var top := |frames| - 1;
      var saved := frames[top].bound;
      ghost var outer := frames;
      MirrorsEnter(frames, Recorded(), env);
      AnalyzeBlock(body, Enter(env));
      ghost var inner := AfterBlock(Enter(env), body);
      CapturesUnion(BlockUses(body, Enter(env), false), ExprUses(cond, inner, false));
      AnalyzeExpr(cond, inner);
      AfterBlockSame(Enter(env), body);
      EnterSame(env);
      MirrorsLeave(outer, frames, Recorded(), env, inner);
      frames := frames[top := frames[top].(bound := saved)];
    }

    method AnalyzeStmt(s: Stmt, ghost env: Env)
      requires Tracks(env)
      modifies this
      ensures KeptBelow(old(frames), frames) && Tracks(After(env, s))
      ensures Recorded() == old(Recorded()) + Captures(StmtUses(s, env, false))
      decreases s, 1
    {
      hide RecordedIn, Mirrors, BlockUses, ExprUses, ExprsUses, TargetsUses, Captures, AfterBlock, Enter,
        DeclareTargets;
      hide DeclareAll;
      match s
      case Assign(isLocal, targets, values) =>
        CapturesUnion(ExprsUses(values, env, false), TargetsUses(isLocal, targets, env, false));
        AnalyzeExprs(values, env);
        AnalyzeTargets(isLocal, targets, env);
      case If(cond, thn, els) =>
        CapturesUnion(ExprUses(cond, env, false), BlockUses(thn, Enter(env), false));
        CapturesUnion(ExprUses(cond, env, false) + BlockUses(thn, Enter(env), false),
                      BlockUses(els, Enter(env), false));
        AnalyzeExpr(cond, env);
        AnalyzeNested(thn, env);
        AnalyzeNested(els, env);
      case Do(body) =>
        AnalyzeNested(body, env);
      case While(cond, body) =>
        CapturesUnion(ExprUses(cond, env, false), BlockUses(body, Enter(env), false));
        AnalyzeExpr(cond, env);
        AnalyzeNested(body, env);
      case Repeat(_, _) =>
        AnalyzeRepeat(s, env);
      case ForNumeric(index, bounds, body) =>
        CapturesUnion(ExprsUses(bounds, env, false), BlockUses(body, Declare(Enter(env), index), false));
        DeclareOne(Enter(env), index);
        AnalyzeExprs(bounds, env);
        AnalyzeLoop([index], body, env);
      case ForGeneric(vars, iters, body) =>
        CapturesUnion(ItersUses(iters, env, false), BlockUses(body, DeclareAll(Enter(env), vars), false));
        if |iters| > 0 {
          AnalyzeExpr(iters[0], env);
        } else {
          CapturesNone();
        }
        AnalyzeLoop(vars, body, env);
      case Return(values) =>
        AnalyzeExprs(values, env);
      case ExprStmt(e) =>
        AnalyzeExpr(e, env);
    }

    method AnalyzeBlock(ss: seq<Stmt>, ghost env: Env)
      requires Tracks(env)
      modifies this
      ensures KeptBelow(old(frames), frames) && Tracks(AfterBlock(env, ss))
      ensures Recorded() == old(Recorded()) + Captures(BlockUses(ss, env, false))
      decreases ss, 0
    {
      hide RecordedIn, Mirrors, StmtUses, Captures, After, Fits, MissFacts;
      MirrorsTop(frames, Recorded(), env);
      ghost var before, r := frames, Recorded();
      ghost var seen: set<Use> := {};
      ghost var now := env;
      CapturesNone();
      assert ss[0..] == ss;
      for i := 0 to |ss|
        invariant KeptBelow(before, frames) && Tracks(now)
        invariant AfterBlock(env, ss) == AfterBlock(now, ss[i..])
        invariant BlockUses(ss, env, false) == seen + BlockUses(ss[i..], now, false)
        invariant Recorded() == r + Captures(seen)
      {
        assert ss[i..][0] == ss[i] && ss[i..][1..] == ss[i + 1..];
        CapturesUnion(seen, StmtUses(ss[i], now, false));
        AnalyzeStmt(ss[i], now);
        seen := seen + StmtUses(ss[i], now, false);
        now := After(now, ss[i]);
      }
    }
  }

  lemma {:induction false} MirrorsTop(frames: seq<Frame>, recorded: set<Fact>, env: Env)
    requires Mirrors(frames, recorded, env)
    ensures |frames| == |env| && Fits(frames[|env| - 1].bound, env[|env| - 1])
    ensures var top := |env| - 1; forall n :: n in frames[top].free ==> MissFacts(env, top, n) <= recorded
  {
    hide MissFacts, Fits;
  }

  lemma {:induction false} MirrorsMiss(frames: seq<Frame>, recorded: set<Fact>, env: Env, name: string)
    requires Mirrors(frames, recorded, env)
    ensures |frames| == |env|
    ensures var top := |env| - 1;
            Mirrors(frames[top := frames[top].(free := Add(frames[top].free, name))],
                    recorded + MissFacts(env, top, name), env)
  {
    hide MissFacts;
  }

  /** Only the free names of the innermost function may have grown. */
  ghost predicate Kept(before: seq<Frame>, after: seq<Frame>) {
    && |after| == |before| > 0 && after[..|before| - 1] == before[..|before| - 1]
    && after[|before| - 1].fid == before[|before| - 1].fid && after[|before| - 1].bound == before[|before| - 1].bound
  }

  /** The frames below the innermost one are untouched. */
  ghost predicate KeptBelow(before: seq<Frame>, after: seq<Frame>) {
    && |after| == |before| > 0 && after[..|before| - 1] == before[..|before| - 1]
    && after[|before| - 1].fid == before[|before| - 1].fid
  }

  /** The parameters of a function as its first bound names. */
  function ParamNames(params: seq<string>): (r: seq<string>)
    ensures forall n :: n in r <==> n in params && n != "..."
    decreases |params|
  {
    if |params| == 0 then []
    else
      var rest := ParamNames(params[..|params| - 1]);
      var last := params[|params| - 1];
      assert params == params[..|params| - 1] + [last];
      if last != "..." then Add(rest, last) else rest
  }

  lemma {:induction false} CapturesNone()
    ensures Captures({}) == {}
  {}

  // ---------------------------------------------------------------------------
  // Environments that differ only in the innermost function's blocks
  // ---------------------------------------------------------------------------

  lemma {:induction false} SameTransitive(a: Env, b: Env, c: Env)
    requires SameBelow(a, b) && SameBelow(b, c)
    ensures SameBelow(a, c)
  {}

  lemma {:induction false} EnterSame(env: Env)
    ensures SameBelow(env, Enter(env))
  {}

  lemma {:induction false} EnterFunctionPrefix(env: Env, id: nat, params: seq<string>)
    ensures var inner := EnterFunction(env, id, params); |inner| == |env| + 1 && inner[..|env|] == env
  {}

  lemma {:induction false} DeclareSame(env: Env, name: string)
    ensures SameBelow(env, Declare(env, name))
  {}

  lemma {:induction false} DeclareOne(env: Env, name: string)
    ensures DeclareAll(env, [name]) == Declare(env, name)
  {
    hide Declare;
    assert [name][1..] == [];
  }

  lemma {:induction false} DeclareAllSame(env: Env, names: seq<string>)
    ensures SameBelow(env, DeclareAll(env, names))
    decreases |names|
  {
    if |names| > 0 {
      hide Declare;
      DeclareSame(env, names[0]);
      DeclareAllSame(Declare(env, names[0]), names[1..]);
      SameTransitive(env, Declare(env, names[0]), DeclareAll(env, names));
    }
  }

  lemma {:induction false} DeclareTargetsSame(env: Env, ts: seq<Expr>)
    ensures SameBelow(env, DeclareTargets(env, ts))
    decreases |ts|
  {
    if |ts| > 0 {
      hide Declare;
      var next := if ts[0].Id? then Declare(env, ts[0].name) else env;
      if ts[0].Id? {
        DeclareSame(env, ts[0].name);
      }
      DeclareTargetsSame(next, ts[1..]);
      SameTransitive(env, next, DeclareTargets(env, ts));
    }
  }

  lemma {:induction false} AfterBlockSame(env: Env, ss: seq<Stmt>)
    ensures SameBelow(env, AfterBlock(env, ss))
    decreases |ss|
  {
    if |ss| > 0 {
      hide DeclareTargets;
      var next := After(env, ss[0]);
      if ss[0].Assign? {
        DeclareTargetsSame(env, ss[0].targets);
      }
      AfterBlockSame(next, ss[1..]);
      SameTransitive(env, next, AfterBlock(env, ss));
    }
  }

  // ---------------------------------------------------------------------------
  // What keeps the frames a mirror of the environment
  // ---------------------------------------------------------------------------

  /** The memo survives any change to the innermost function's blocks. */
  lemma {:induction false} MemoFrozen(env: Env, env': Env)
    requires SameBelow(env, env')
    ensures forall k: nat, n :: k < |env| ==> MissFacts(env', k, n) == MissFacts(env, k, n)
  {
    hide MissFacts;
    forall k: nat, n | k < |env|
      ensures MissFacts(env', k, n) == MissFacts(env, k, n)
    {
      var top := |env| - 1;
      assert env[..k] == env[..top][..k] && env'[..k] == env'[..top][..k];
      if k < top {
        assert env[k] == env[..top][k] && env'[k] == env'[..top][k];
      }
      MissFrozen(env, env', k, n);
    }
  }

  /** Other blocks in the innermost function, and a bound list that fits them. */
  lemma {:induction false} MirrorsRebind(frames: seq<Frame>, recorded: set<Fact>, env: Env, env': Env,
      bound: seq<string>)
    requires Mirrors(frames, recorded, env) && SameBelow(env, env')
    requires Fits(bound, env'[|env| - 1])
    ensures |frames| == |env| && Mirrors(frames[|env| - 1 := frames[|env| - 1].(bound := bound)], recorded, env')
  {
    hide MissFacts, Fits;
    MemoFrozen(env, env');
    forall k | 0 <= k < |env| - 1
      ensures env'[k] == env[k]
    {
      assert env[k] == env[..|env| - 1][k] && env'[k] == env'[..|env| - 1][k];
    }
  }

  lemma {:induction false} MirrorsDeclare(frames: seq<Frame>, recorded: set<Fact>, env: Env, name: string)
    requires Mirrors(frames, recorded, env)
    ensures |frames| == |env|
    ensures var top := |env| - 1;
            Mirrors(frames[top := frames[top].(bound := Add(frames[top].bound, name))], recorded, Declare(env, name))
  {
    hide MissFacts;
    var top := |env| - 1;
    DeclareSame(env, name);
    DeclareVisible(env, name, frames[top].bound);
    MirrorsRebind(frames, recorded, env, Declare(env, name), Add(frames[top].bound, name));
  }

  lemma {:induction false} DeclareVisible(env: Env, name: string, bound: seq<string>)
    requires Fits(bound, env[|env| - 1])
    ensures Fits(Add(bound, name), Declare(env, name)[|env| - 1])
  {
    var l, l' := env[|env| - 1], Declare(env, name)[|env| - 1];
    assert name in l'.blocks[|l'.blocks| - 1];
    forall n
      ensures n in Add(bound, name) <==> Visible(l', n)
    {
      if Visible(l, n) {
        var i :| 0 <= i < |l.blocks| && n in l.blocks[i];
        assert n in l'.blocks[i];
      }
    }
  }

  lemma {:induction false} MirrorsEnter(frames: seq<Frame>, recorded: set<Fact>, env: Env)
    requires Mirrors(frames, recorded, env)
    ensures Mirrors(frames, recorded, Enter(env))
  {
    hide MissFacts;
    var top := |env| - 1;
    EnterSame(env);
    EnterVisible(env, frames[top].bound);
    MirrorsRebind(frames, recorded, env, Enter(env), frames[top].bound);
    assert frames[top := frames[top].(bound := frames[top].bound)] == frames;
  }

  lemma {:induction false} EnterVisible(env: Env, bound: seq<string>)
    requires Fits(bound, env[|env| - 1])
    ensures Fits(bound, Enter(env)[|env| - 1])
  {
    var l, l' := env[|env| - 1], Enter(env)[|env| - 1];
    forall n
      ensures Visible(l', n) <==> Visible(l, n)
    {
      if Visible(l, n) {
        var i :| 0 <= i < |l.blocks| && n in l.blocks[i];
        assert n in l'.blocks[i];
      }
    }
  }

  /** Leaving a block: the saved list fits the blocks that were open before. */
  lemma {:induction false} MirrorsLeave(outer: seq<Frame>, frames: seq<Frame>, recorded: set<Fact>, env: Env,
      inner: Env)
    requires |outer| == |env| && SameBelow(env, inner) && Mirrors(frames, recorded, inner)
    requires Fits(outer[|env| - 1].bound, env[|env| - 1])
    ensures |frames| == |env|
    ensures Mirrors(frames[|env| - 1 := frames[|env| - 1].(bound := outer[|env| - 1].bound)], recorded, env)
  {
    MirrorsRebind(frames, recorded, inner, env, outer[|env| - 1].bound);
  }

  /** A nested function's frame starts with its parameters and no free names. */
  lemma {:induction false} MirrorsPush(
    frames: seq<Frame>, recorded: set<Fact>, env: Env, id: nat, params: seq<string>, bound: seq<string>)
    requires Mirrors(frames, recorded, env)
    requires forall n :: n in bound <==> n in params && n != "..."
    ensures Mirrors(frames + [Frame(id, bound, [])], recorded, EnterFunction(env, id, params))
  {
    hide MissFacts;
    var inner := EnterFunction(env, id, params);
    var top := |env|;
    assert inner[top].blocks[0] == set p | p in params && p != "...";
    MissPrefix(env, inner);
  }

  lemma {:induction false} MissPrefix(env: Env, inner: Env)
    requires |env| <= |inner| && inner[..|env|] == env
    ensures forall k: nat, n :: k < |env| ==> inner[k] == env[k] && MissFacts(inner, k, n) == MissFacts(env, k, n)
  {
    hide MissFacts;
    forall k: nat, n | k < |env|
      ensures inner[k] == env[k] && MissFacts(inner, k, n) == MissFacts(env, k, n)
    {
      assert inner[k] == inner[..|env|][k];
      assert inner[..k] == inner[..|env|][..k];
      MissFrozen(env, inner, k, n);
    }
  }

  /** Leaving the function gives its frame up; the frames below were frozen meanwhile. */
  lemma {:induction false} MirrorsPop(outer: seq<Frame>, frames: seq<Frame>, recorded: set<Fact>, env: Env, inner: Env)
    requires |outer| == |env| && |inner| == |env| + 1 && inner[..|env|] == env
    requires Mirrors(frames, recorded, inner) && frames[..|env|] == outer
    ensures Mirrors(frames[..|env|], recorded, env)
  {
    hide MissFacts, Fits;
    MissPrefix(env, inner);
  }

  // ---------------------------------------------------------------------------
  // The whole program
  // ---------------------------------------------------------------------------

  /** Analyses a program: what every function carries and what it boxes, each name once. The
      answer is what the uses capture under lexical scoping, those in the second and later
      iterator expressions of a generic `for` excepted. */
  method AnalyzeClosures(program: seq<Stmt>) returns (upvalues: map<nat, seq<string>>, boxed: map<nat, seq<string>>)
    ensures RecordedIn(upvalues, boxed) == Captures(BlockUses(program, ChunkEnv(), false))
    ensures AllDistinct(upvalues) && AllDistinct(boxed)
  {
    hide BlockUses, Mirrors, RecordedIn;
    var a := new Analyzer();
    a.AnalyzeBlock(program, ChunkEnv());
    upvalues, boxed := a.upvalues, a.boxed;
  }

  lemma {:induction false} RepeatUses(body: seq<Stmt>, cond: Expr, env: Env)
    ensures var inner := AfterBlock(Enter(env), body);
            StmtUses(Repeat(body, cond), env, false)
            == BlockUses(body, Enter(env), false) + ExprUses(cond, inner, false)
  {
    hide BlockUses, ExprUses, AfterBlock, Enter;
  }
}
