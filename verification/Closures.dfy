/** Which variables closures capture: the syntax the analysis walks, what lexical scoping
    says about it, and the properties of that answer. */
module Closures {

  // ---------------------------------------------------------------------------
  // Syntax
  // ---------------------------------------------------------------------------

  /** Expressions, as far as names go. A `Compound` is an operator, table access, table
      constructor or call with its parts in evaluation order. Functions carry an identity. */
  datatype Expr =
    | Id(name: string)
    | Leaf
    | Compound(parts: seq<Expr>)
    | Function(id: nat, params: seq<string>, body: seq<Stmt>)

  datatype Stmt =
    | Assign(isLocal: bool, targets: seq<Expr>, values: seq<Expr>)
    | If(cond: Expr, thn: seq<Stmt>, els: seq<Stmt>)
    | Do(body: seq<Stmt>)
    | While(cond: Expr, body: seq<Stmt>)
    | Repeat(body: seq<Stmt>, cond: Expr)
    | ForNumeric(index: string, bounds: seq<Expr>, body: seq<Stmt>)
    | ForGeneric(vars: seq<string>, iters: seq<Expr>, body: seq<Stmt>)
    | Return(values: seq<Expr>)
    | ExprStmt(e: Expr)

  // ---------------------------------------------------------------------------
  // Lexical scoping
  // ---------------------------------------------------------------------------

  /** One function of the static chain and its open block scopes, innermost last. Level 0 is
      the chunk, whose variables are globals to the compiler. */
  datatype Level = Level(fid: nat, blocks: seq<set<string>>)

  type Env = e: seq<Level> | |e| > 0 witness [Level(0, [{}])]

  ghost predicate Visible(l: Level, name: string) {
    exists i :: 0 <= i < |l.blocks| && name in l.blocks[i]
  }

  /** The level of the innermost function at or below `k` that has `name` in scope; 0 when
      the name is a global. */
  ghost function Owner(env: Env, k: nat, name: string): (l: nat)
    requires k < |env|
    ensures l <= k && (l > 0 ==> Visible(env[l], name))
    ensures forall m :: l < m <= k ==> !Visible(env[m], name)
  {
    if k == 0 || Visible(env[k], name) then k else Owner(env, k - 1, name)
  }

  /** `Boxed(f, x)`: f's variable x is shared with a closure. `Up(f, x)`: closures of f carry x. */
  datatype Fact = Up(fid: nat, name: string) | Boxed(fid: nat, name: string)

  /** What one use of `name` in the innermost function captures: a variable of an enclosing
      function is boxed there and carried by every function from the use up to that owner. */
  ghost function UseFacts(env: Env, name: string): set<Fact> {
    var top := |env| - 1;
    var l := Owner(env, top, name);
    if l == 0 || l == top then {} else ChainFacts(env, l, top, name)
  }

  ghost function ChainFacts(env: Env, l: nat, k: nat, name: string): set<Fact>
    requires l <= k < |env|
  {
    {Boxed(env[l].fid, name)} + set m | l < m <= k :: Up(env[m].fid, name)
  }

  /** `name` declared in the innermost block. */
  ghost function Declare(env: Env, name: string): Env {
    var top := |env| - 1;
    var l := env[top];
    var b := |l.blocks| - 1;
    if b < 0 then env[top := Level(l.fid, [{name}])]
    else env[top := Level(l.fid, l.blocks[b := l.blocks[b] + {name}])]
  }

  ghost function DeclareAll(env: Env, names: seq<string>): Env
    decreases |names|
  {
    if |names| == 0 then env else DeclareAll(Declare(env, names[0]), names[1..])
  }

  /** A block opened in the innermost function. */
  ghost function Enter(env: Env): Env {
    var top := |env| - 1;
    env[top := Level(env[top].fid, env[top].blocks + [{}])]
  }

  /** The body of a nested function; "..." is not a name. */
  ghost function EnterFunction(env: Env, id: nat, params: seq<string>): Env {
    env + [Level(id, [set p | p in params && p != "..."])]
  }

  /** Names the statement declares for the statements after it. */
  ghost function After(env: Env, s: Stmt): Env {
    if s.Assign? && s.isLocal then DeclareTargets(env, s.targets) else env
  }

  ghost function DeclareTargets(env: Env, targets: seq<Expr>): Env
    decreases |targets|
  {
    if |targets| == 0 then env
    else DeclareTargets(if targets[0].Id? then Declare(env, targets[0].name) else env, targets[1..])
  }

  ghost function AfterBlock(env: Env, ss: seq<Stmt>): Env
    decreases |ss|
  {
    if |ss| == 0 then env else AfterBlock(After(env, ss[0]), ss[1..])
  }

  /** One use of a name, where it happens. */
  datatype Use = Use(env: Env, name: string)

  /** Everything the given uses capture. */
  ghost function Captures(uses: set<Use>): set<Fact> {
    set u, f | u in uses && f in UseFacts(u.env, u.name) :: f
  }

  // ---------------------------------------------------------------------------
  // All uses of a program
  // ---------------------------------------------------------------------------

  /** Every use in `e`. With `all` unset, the iterator expressions of a generic `for` after
      the first are left out. */
  ghost function ExprUses(e: Expr, env: Env, all: bool): set<Use>
    decreases e
  {
    match e
    case Id(name) => {Use(env, name)}
    case Leaf => {}
    case Compound(parts) => ExprsUses(parts, env, all)
    case Function(id, params, body) => BlockUses(body, EnterFunction(env, id, params), all)
  }

  ghost function ExprsUses(es: seq<Expr>, env: Env, all: bool): set<Use>
    decreases es, 0
  {
    if |es| == 0 then {} else ExprUses(es[0], env, all) + ExprsUses(es[1..], env, all)
  }

  /** The targets of a local declaration are new names, not uses. */
  ghost function TargetsUses(isLocal: bool, ts: seq<Expr>, env: Env, all: bool): set<Use>
    decreases ts
  {
    if |ts| == 0 then {}
    else if isLocal && ts[0].Id? then TargetsUses(isLocal, ts[1..], Declare(env, ts[0].name), all)
    else ExprUses(ts[0], env, all) + TargetsUses(isLocal, ts[1..], env, all)
  }

  ghost function ItersUses(iters: seq<Expr>, env: Env, all: bool): set<Use>
    decreases iters
  {
    if |iters| == 0 then {}
    else if all then ExprsUses(iters, env, all)
    else ExprUses(iters[0], env, all)
  }

  ghost function StmtUses(s: Stmt, env: Env, all: bool): set<Use>
    decreases s
  {
    match s
    case Assign(isLocal, targets, values) => ExprsUses(values, env, all) + TargetsUses(isLocal, targets, env, all)
    case If(cond, thn, els) =>
      ExprUses(cond, env, all) + BlockUses(thn, Enter(env), all) + BlockUses(els, Enter(env), all)
    case Do(body) => BlockUses(body, Enter(env), all)
    case While(cond, body) => ExprUses(cond, env, all) + BlockUses(body, Enter(env), all)
    case Repeat(body, cond) =>
      BlockUses(body, Enter(env), all) + ExprUses(cond, AfterBlock(Enter(env), body), all)
    case ForNumeric(index, bounds, body) =>
      ExprsUses(bounds, env, all) + BlockUses(body, Declare(Enter(env), index), all)
    case ForGeneric(vars, iters, body) =>
      ItersUses(iters, env, all) + BlockUses(body, DeclareAll(Enter(env), vars), all)
    case Return(values) => ExprsUses(values, env, all)
    case ExprStmt(e) => ExprUses(e, env, all)
  }

  ghost function BlockUses(ss: seq<Stmt>, env: Env, all: bool): set<Use>
    decreases ss
  {
    if |ss| == 0 then {} else StmtUses(ss[0], env, all) + BlockUses(ss[1..], After(env, ss[0]), all)
  }

  /** The environment a program starts in. */
  ghost function ChunkEnv(): Env {
    [Level(0, [{}])]
  }

  // ---------------------------------------------------------------------------
  // What captures give the closures that are built from them
  // ---------------------------------------------------------------------------

  /** A use of an enclosing function's variable boxes it there, and every function from the
      use up to that owner carries it. */
  lemma {:induction false} CapturedUse(uses: set<Use>, u: Use, l: nat)
    requires u in uses && l == Owner(u.env, |u.env| - 1, u.name) && 0 < l < |u.env| - 1
    ensures Boxed(u.env[l].fid, u.name) in Captures(uses)
    ensures forall m :: l < m < |u.env| ==> Up(u.env[m].fid, u.name) in Captures(uses)
  {
    assert UseFacts(u.env, u.name) <= Captures(uses);
    forall m | l < m < |u.env|
      ensures Up(u.env[m].fid, u.name) in Captures(uses)
    {
      assert Up(u.env[m].fid, u.name) in UseFacts(u.env, u.name);
    }
  }

  /** Nothing is captured without such a use. */
  lemma {:induction false} CaptureHasUse(uses: set<Use>, f: Fact)
    requires f in Captures(uses)
    ensures exists u: Use, l: nat ::
              && u in uses && u.name == f.name && l < |u.env| - 1
              && l == Owner(u.env, |u.env| - 1, u.name) && l > 0
              && (f == Boxed(u.env[l].fid, f.name) || exists m :: l < m < |u.env| && f == Up(u.env[m].fid, f.name))
  {
    var u :| u in uses && f in UseFacts(u.env, u.name);
    var l := Owner(u.env, |u.env| - 1, u.name);
    assert f == Boxed(u.env[l].fid, f.name) || exists m :: l < m < |u.env| && f == Up(u.env[m].fid, f.name);
  }

  // ---------------------------------------------------------------------------
  // The function a closure is built in
  // ---------------------------------------------------------------------------

  /** A function and the function whose body it stands in, not counting those in between. */
  datatype Nested = Nested(id: nat, parent: nat)

  /** All functions in `e`, which stands in the body of `parent`. */
  ghost function ExprFunctions(e: Expr, parent: nat): seq<Nested>
    decreases e
  {
    match e
    case Compound(parts) => ExprsFunctions(parts, parent)
    case Function(id, _, body) => [Nested(id, parent)] + BlockFunctions(body, id)
    case _ => []
  }

  ghost function ExprsFunctions(es: seq<Expr>, parent: nat): seq<Nested>
    decreases es, 0
  {
    if |es| == 0 then [] else ExprFunctions(es[0], parent) + ExprsFunctions(es[1..], parent)
  }

  ghost function StmtFunctions(s: Stmt, parent: nat): seq<Nested>
    decreases s
  {
    match s
    case Assign(_, targets, values) => ExprsFunctions(targets, parent) + ExprsFunctions(values, parent)
    case If(cond, thn, els) =>
      ExprFunctions(cond, parent) + BlockFunctions(thn, parent) + BlockFunctions(els, parent)
    case Do(body) => BlockFunctions(body, parent)
    case While(cond, body) => ExprFunctions(cond, parent) + BlockFunctions(body, parent)
    case Repeat(body, cond) => BlockFunctions(body, parent) + ExprFunctions(cond, parent)
    case ForNumeric(_, bounds, body) => ExprsFunctions(bounds, parent) + BlockFunctions(body, parent)
    case ForGeneric(_, iters, body) => ExprsFunctions(iters, parent) + BlockFunctions(body, parent)
    case Return(values) => ExprsFunctions(values, parent)
    case ExprStmt(e) => ExprFunctions(e, parent)
  }

  ghost function BlockFunctions(ss: seq<Stmt>, parent: nat): seq<Nested>
    decreases ss
  {
    if |ss| == 0 then [] else StmtFunctions(ss[0], parent) + BlockFunctions(ss[1..], parent)
  }

  /** No two functions of the program have the same identity. */
  ghost predicate DistinctFunctions(program: seq<Stmt>) {
    var all := BlockFunctions(program, 0);
    forall i, j :: 0 <= i < j < |all| ==> all[i].id != all[j].id
  }

  /** The functions of `outer`, then functions each nested in the one before. */
  ghost predicate Deepens(inner: Env, outer: Env, all: seq<Nested>) {
    && |outer| <= |inner|
    && (forall k :: 0 <= k < |outer| ==> inner[k].fid == outer[k].fid)
    && (forall k :: |outer| <= k < |inner| ==> Nested(inner[k].fid, inner[k - 1].fid) in all)
  }

  ghost predicate SameFunctions(a: Env, b: Env) {
    |a| == |b| && forall k :: 0 <= k < |a| ==> a[k].fid == b[k].fid
  }

  ghost function Innermost(env: Env): nat {
    env[|env| - 1].fid
  }

  lemma {:induction false} SameDeclaredAll(env: Env, names: seq<string>)
    ensures SameFunctions(DeclareAll(env, names), env)
    decreases |names|
  {
    if |names| > 0 {
      SameDeclaredAll(Declare(env, names[0]), names[1..]);
    }
  }

  lemma {:induction false} SameDeclaredTargets(env: Env, targets: seq<Expr>)
    ensures SameFunctions(DeclareTargets(env, targets), env)
    decreases |targets|
  {
    if |targets| > 0 {
      SameDeclaredTargets(if targets[0].Id? then Declare(env, targets[0].name) else env, targets[1..]);
    }
  }

  lemma {:induction false} SameAfterBlock(env: Env, ss: seq<Stmt>)
    ensures SameFunctions(AfterBlock(env, ss), env)
    decreases |ss|
  {
    if |ss| > 0 {
      SameAfter(env, ss[0]);
      SameAfterBlock(After(env, ss[0]), ss[1..]);
    }
  }

  lemma {:induction false} SameAfter(env: Env, s: Stmt)
    ensures SameFunctions(After(env, s), env)
  {
    if s.Assign? && s.isLocal {
      SameDeclaredTargets(env, s.targets);
    }
  }

  lemma {:induction false} DeepensIn(inner: Env, outer: Env, same: Env, part: seq<Nested>, all: seq<Nested>)
    requires Deepens(inner, outer, part) && SameFunctions(outer, same) && forall n :: n in part ==> n in all
    ensures Deepens(inner, same, all)
  {}

  lemma {:induction false} ExprNests(e: Expr, env: Env, all: bool, u: Use)
    requires u in ExprUses(e, env, all)
    ensures Deepens(u.env, env, ExprFunctions(e, Innermost(env)))
    decreases e, 0
  {
    match e
    case Id(_) =>
    case Leaf =>
    case Compound(parts) => ExprsNests(parts, env, all, u);
    case Function(id, params, body) =>
      hide BlockUses, BlockFunctions;
      BlockNests(body, EnterFunction(env, id, params), all, u);
  }

  lemma {:induction false} ExprsNests(es: seq<Expr>, env: Env, all: bool, u: Use)
    requires u in ExprsUses(es, env, all)
    ensures Deepens(u.env, env, ExprsFunctions(es, Innermost(env)))
    decreases es, 0
  {
    hide ExprUses, ExprFunctions, Deepens;
    var parent := Innermost(env);
    if u in ExprUses(es[0], env, all) {
      ExprNests(es[0], env, all, u);
      DeepensIn(u.env, env, env, ExprFunctions(es[0], parent), ExprsFunctions(es, parent));
    } else {
      ExprsNests(es[1..], env, all, u);
      DeepensIn(u.env, env, env, ExprsFunctions(es[1..], parent), ExprsFunctions(es, parent));
    }
  }

  lemma {:induction false} TargetsNests(isLocal: bool, ts: seq<Expr>, env: Env, all: bool, u: Use)
    requires u in TargetsUses(isLocal, ts, env, all)
    ensures Deepens(u.env, env, ExprsFunctions(ts, Innermost(env)))
    decreases ts
  {
    hide ExprUses, ExprFunctions, Deepens, Declare;
    var parent := Innermost(env);
    if isLocal && ts[0].Id? {
      var next := Declare(env, ts[0].name);
      SameDeclared(env, ts[0].name);
      TargetsNests(isLocal, ts[1..], next, all, u);
      DeepensIn(u.env, next, env, ExprsFunctions(ts[1..], parent), ExprsFunctions(ts, parent));
    } else if u in ExprUses(ts[0], env, all) {
      ExprNests(ts[0], env, all, u);
      DeepensIn(u.env, env, env, ExprFunctions(ts[0], parent), ExprsFunctions(ts, parent));
    } else {
      TargetsNests(isLocal, ts[1..], env, all, u);
      DeepensIn(u.env, env, env, ExprsFunctions(ts[1..], parent), ExprsFunctions(ts, parent));
    }
  }

  lemma {:induction false} SameDeclared(env: Env, name: string)
    ensures SameFunctions(Declare(env, name), env)
  {}

  lemma {:induction false} SameEntered(env: Env)
    ensures SameFunctions(Enter(env), env)
  {}

  lemma {:induction false} ItersNests(iters: seq<Expr>, env: Env, all: bool, u: Use)
    requires u in ItersUses(iters, env, all)
    ensures Deepens(u.env, env, ExprsFunctions(iters, Innermost(env)))
    decreases iters
  {
    hide ExprUses, ExprFunctions, Deepens;
    var parent := Innermost(env);
    if all {
      ExprsNests(iters, env, all, u);
    } else {
      ExprNests(iters[0], env, all, u);
      DeepensIn(u.env, env, env, ExprFunctions(iters[0], parent), ExprsFunctions(iters, parent));
    }
  }

  /** A use in a block that is opened in `env`, possibly with names declared first. */
  lemma {:induction false} BodyNests(body: seq<Stmt>, inside: Env, env: Env, all: bool, u: Use, functions: seq<Nested>)
    requires u in BlockUses(body, inside, all) && SameFunctions(inside, env)
    requires forall n :: n in BlockFunctions(body, Innermost(env)) ==> n in functions
    ensures Deepens(u.env, env, functions)
    decreases body, 1
  {
    hide BlockUses, BlockFunctions, Deepens;
    BlockNests(body, inside, all, u);
    DeepensIn(u.env, inside, env, BlockFunctions(body, Innermost(env)), functions);
  }

  lemma {:induction false} PartNests(es: seq<Expr>, inside: Env, env: Env, all: bool, u: Use, functions: seq<Nested>)
    requires u in ExprsUses(es, inside, all) && SameFunctions(inside, env)
    requires forall n :: n in ExprsFunctions(es, Innermost(env)) ==> n in functions
    ensures Deepens(u.env, env, functions)
    decreases es, 1
  {
    hide ExprsUses, ExprsFunctions, Deepens;
    ExprsNests(es, inside, all, u);
    DeepensIn(u.env, inside, env, ExprsFunctions(es, Innermost(env)), functions);
  }

  lemma {:induction false} OneNests(e: Expr, inside: Env, env: Env, all: bool, u: Use, functions: seq<Nested>)
    requires u in ExprUses(e, inside, all) && SameFunctions(inside, env)
    requires forall n :: n in ExprFunctions(e, Innermost(env)) ==> n in functions
    ensures Deepens(u.env, env, functions)
    decreases e, 1
  {
    hide ExprUses, ExprFunctions, Deepens;
    ExprNests(e, inside, all, u);
    DeepensIn(u.env, inside, env, ExprFunctions(e, Innermost(env)), functions);
  }

  lemma {:induction false} AssignNests(s: Stmt, env: Env, all: bool, u: Use)
    requires s.Assign? && u in StmtUses(s, env, all)
    ensures Deepens(u.env, env, StmtFunctions(s, Innermost(env)))
    decreases s, 0
  {
    hide ExprUses, ExprsUses, TargetsUses, BlockUses, ItersUses, ExprFunctions, ExprsFunctions, BlockFunctions;
    hide AfterBlock, Enter, Declare, DeclareAll, Deepens, SameFunctions;
    var fs := StmtFunctions(s, Innermost(env));
    SameSelf(env);
    if u in ExprsUses(s.values, env, all) {
      PartNests(s.values, env, env, all, u, fs);
    } else {
      TargetsNests(s.isLocal, s.targets, env, all, u);
      DeepensIn(u.env, env, env, ExprsFunctions(s.targets, Innermost(env)), fs);
    }
  }

  lemma {:induction false} IfNests(s: Stmt, env: Env, all: bool, u: Use)
    requires s.If? && u in StmtUses(s, env, all)
    ensures Deepens(u.env, env, StmtFunctions(s, Innermost(env)))
    decreases s, 0
  {
    hide ExprUses, ExprsUses, TargetsUses, BlockUses, ItersUses, ExprFunctions, ExprsFunctions, BlockFunctions;
    hide AfterBlock, Enter, Declare, DeclareAll, Deepens, SameFunctions;
    var inside, fs := Enter(env), StmtFunctions(s, Innermost(env));
    SameSelf(env);
    SameEntered(env);
    if u in ExprUses(s.cond, env, all) {
      OneNests(s.cond, env, env, all, u, fs);
    } else if u in BlockUses(s.thn, inside, all) {
      BodyNests(s.thn, inside, env, all, u, fs);
    } else {
      BodyNests(s.els, inside, env, all, u, fs);
    }
  }

  lemma {:induction false} RepeatNests(s: Stmt, env: Env, all: bool, u: Use)
    requires s.Repeat? && u in StmtUses(s, env, all)
    ensures Deepens(u.env, env, StmtFunctions(s, Innermost(env)))
    decreases s, 0
  {
    hide ExprUses, ExprsUses, TargetsUses, BlockUses, ItersUses, ExprFunctions, ExprsFunctions, BlockFunctions;
    hide AfterBlock, Enter, Declare, DeclareAll, Deepens, SameFunctions;
    var inside, fs := Enter(env), StmtFunctions(s, Innermost(env));
    SameSelf(env);
    SameEntered(env);
    if u in BlockUses(s.body, inside, all) {
      BodyNests(s.body, inside, env, all, u, fs);
    } else {
      var after := AfterBlock(inside, s.body);
      SameAfterBlock(inside, s.body);
      SameTwice(after, inside, env);
      OneNests(s.cond, after, env, all, u, fs);
    }
  }

  lemma {:induction false} NumericNests(s: Stmt, env: Env, all: bool, u: Use)
    requires s.ForNumeric? && u in StmtUses(s, env, all)
    ensures Deepens(u.env, env, StmtFunctions(s, Innermost(env)))
    decreases s, 0
  {
    hide ExprUses, ExprsUses, TargetsUses, BlockUses, ItersUses, ExprFunctions, ExprsFunctions, BlockFunctions;
    hide AfterBlock, Enter, Declare, DeclareAll, Deepens, SameFunctions;
    var inside, fs := Enter(env), StmtFunctions(s, Innermost(env));
    SameSelf(env);
    SameEntered(env);
    if u in ExprsUses(s.bounds, env, all) {
      PartNests(s.bounds, env, env, all, u, fs);
    } else {
      SameDeclared(inside, s.index);
      SameTwice(Declare(inside, s.index), inside, env);
      BodyNests(s.body, Declare(inside, s.index), env, all, u, fs);
    }
  }

  lemma {:induction false} GenericNests(s: Stmt, env: Env, all: bool, u: Use)
    requires s.ForGeneric? && u in StmtUses(s, env, all)
    ensures Deepens(u.env, env, StmtFunctions(s, Innermost(env)))
    decreases s, 0
  {
    hide ExprUses, ExprsUses, TargetsUses, BlockUses, ItersUses, ExprFunctions, ExprsFunctions, BlockFunctions;
    hide AfterBlock, Enter, Declare, DeclareAll, Deepens, SameFunctions;
    var inside, fs := Enter(env), StmtFunctions(s, Innermost(env));
    SameSelf(env);
    SameEntered(env);
    if u in ItersUses(s.iters, env, all) {
      ItersNests(s.iters, env, all, u);
      DeepensIn(u.env, env, env, ExprsFunctions(s.iters, Innermost(env)), fs);
    } else {
      SameDeclaredAll(inside, s.vars);
      SameTwice(DeclareAll(inside, s.vars), inside, env);
      BodyNests(s.body, DeclareAll(inside, s.vars), env, all, u, fs);
    }
  }

  lemma {:induction false} WhileNests(s: Stmt, env: Env, all: bool, u: Use)
    requires s.While? && u in StmtUses(s, env, all)
    ensures Deepens(u.env, env, StmtFunctions(s, Innermost(env)))
    decreases s, 0
  {
    hide ExprUses, ExprsUses, TargetsUses, BlockUses, ItersUses, ExprFunctions, ExprsFunctions, BlockFunctions;
    hide AfterBlock, Enter, Declare, DeclareAll, Deepens, SameFunctions;
    var inside, fs := Enter(env), StmtFunctions(s, Innermost(env));
    SameSelf(env);
    SameEntered(env);
    if u in ExprUses(s.cond, env, all) {
      OneNests(s.cond, env, env, all, u, fs);
    } else {
      BodyNests(s.body, inside, env, all, u, fs);
    }
  }

  lemma {:induction false} StmtNests(s: Stmt, env: Env, all: bool, u: Use)
    requires u in StmtUses(s, env, all)
    ensures Deepens(u.env, env, StmtFunctions(s, Innermost(env)))
    decreases s, 1
  {
    hide ExprUses, ExprsUses, BlockUses, ExprFunctions, ExprsFunctions, BlockFunctions, Enter, Deepens, SameFunctions;
    var fs := StmtFunctions(s, Innermost(env));
    SameSelf(env);
    match s
    case Assign(_, _, _) => AssignNests(s, env, all, u);
    case If(_, _, _) => IfNests(s, env, all, u);
    case Do(body) => SameEntered(env); BodyNests(body, Enter(env), env, all, u, fs);
    case While(_, _) => WhileNests(s, env, all, u);
    case Repeat(_, _) => RepeatNests(s, env, all, u);
    case ForNumeric(_, _, _) => NumericNests(s, env, all, u);
    case ForGeneric(_, _, _) => GenericNests(s, env, all, u);
    case Return(values) => PartNests(values, env, env, all, u, fs);
    case ExprStmt(e) => OneNests(e, env, env, all, u, fs);
  }

  lemma {:induction false} SameSelf(env: Env)
    ensures SameFunctions(env, env)
  {}

  lemma {:induction false} SameTwice(a: Env, b: Env, c: Env)
    requires SameFunctions(a, b) && SameFunctions(b, c)
    ensures SameFunctions(a, c)
  {}

  lemma {:induction false} BlockNests(ss: seq<Stmt>, env: Env, all: bool, u: Use)
    requires u in BlockUses(ss, env, all)
    ensures Deepens(u.env, env, BlockFunctions(ss, Innermost(env)))
    decreases ss, 0
  {
    hide StmtUses, StmtFunctions, After, Deepens;
    var parent, next := Innermost(env), After(env, ss[0]);
    if u in StmtUses(ss[0], env, all) {
      StmtNests(ss[0], env, all, u);
      DeepensIn(u.env, env, env, StmtFunctions(ss[0], parent), BlockFunctions(ss, parent));
    } else {
      SameAfter(env, ss[0]);
      BlockNests(ss[1..], next, all, u);
      DeepensIn(u.env, next, env, BlockFunctions(ss[1..], parent), BlockFunctions(ss, parent));
    }
  }

  /** Function `p` has a variable `name` boxed, or carries one. */
  ghost predicate Offers(facts: set<Fact>, p: nat, name: string) {
    Boxed(p, name) in facts || Up(p, name) in facts
  }

  /** Copying a closure's upvalues out of the function that builds it always finds them: the one
      function `p` that a function with an upvalue stands in is itself a function of the program,
      not the chunk, and has the variable boxed or as an upvalue of its own. */
  lemma {:induction false} ParentHasUpvalue(program: seq<Stmt>, all: bool, g: nat, name: string) returns (p: nat)
    requires DistinctFunctions(program) && Up(g, name) in Captures(BlockUses(program, ChunkEnv(), all))
    ensures var fs := BlockFunctions(program, 0);
            && Nested(g, p) in fs && (forall q :: Nested(g, q) in fs ==> q == p)
            && (exists q :: Nested(p, q) in fs)
            && Offers(Captures(BlockUses(program, ChunkEnv(), all)), p, name)
  {
    hide BlockUses, BlockFunctions, Captures;
    var uses, fs := BlockUses(program, ChunkEnv(), all), BlockFunctions(program, 0);
    var u, m := CarriedBelow(uses, g, name);
    p := u.env[m - 1].fid;
    BlockNests(program, ChunkEnv(), all, u);
    assert Nested(g, p) in fs && Nested(p, u.env[m - 2].fid) in fs;
    forall q | Nested(g, q) in fs
      ensures q == p
    {
      OneParent(fs, g, p, q);
    }
  }

  lemma {:induction false} OneParent(fs: seq<Nested>, g: nat, p: nat, q: nat)
    requires forall i, j :: 0 <= i < j < |fs| ==> fs[i].id != fs[j].id
    requires Nested(g, p) in fs && Nested(g, q) in fs
    ensures p == q
  {
    var i :| 0 <= i < |fs| && fs[i] == Nested(g, p);
    var j :| 0 <= j < |fs| && fs[j] == Nested(g, q);
    assert i == j;
  }

  /** A use that makes function `g` carry `name`, and the level of `g` there. */
  lemma {:induction false} CarriedBelow(uses: set<Use>, g: nat, name: string) returns (u: Use, m: nat)
    requires Up(g, name) in Captures(uses)
    ensures u in uses && 1 < m < |u.env| && u.env[m].fid == g && Offers(Captures(uses), u.env[m - 1].fid, name)
  {
    u :| u in uses && Up(g, name) in UseFacts(u.env, u.name);
    var top := |u.env| - 1;
    var l := Owner(u.env, top, u.name);
    m :| l < m <= top && u.env[m].fid == g;
    CapturedUse(uses, u, l);
    if m - 1 == l {
      assert Boxed(u.env[m - 1].fid, name) in Captures(uses);
    } else {
      assert Up(u.env[m - 1].fid, name) in Captures(uses);
    }
  }

  // ---------------------------------------------------------------------------
  // Generic loops with a list of iterator expressions
  // ---------------------------------------------------------------------------

  /** No generic `for` has more than one iterator expression. */
  predicate SingleExpr(e: Expr)
    decreases e
  {
    match e
    case Compound(parts) => SingleExprs(parts)
    case Function(_, _, body) => SingleBlock(body)
    case _ => true
  }

  predicate SingleExprs(es: seq<Expr>)
    decreases es, 0
  {
    |es| == 0 || (SingleExpr(es[0]) && SingleExprs(es[1..]))
  }

  predicate SingleStmt(s: Stmt)
    decreases s
  {
    match s
    case Assign(_, targets, values) => SingleExprs(targets) && SingleExprs(values)
    case If(cond, thn, els) => SingleExpr(cond) && SingleBlock(thn) && SingleBlock(els)
    case Do(body) => SingleBlock(body)
    case While(cond, body) => SingleExpr(cond) && SingleBlock(body)
    case Repeat(body, cond) => SingleBlock(body) && SingleExpr(cond)
    case ForNumeric(_, bounds, body) => SingleExprs(bounds) && SingleBlock(body)
    case ForGeneric(_, iters, body) => |iters| <= 1 && SingleExprs(iters) && SingleBlock(body)
    case Return(values) => SingleExprs(values)
    case ExprStmt(e) => SingleExpr(e)
  }

  predicate SingleBlock(ss: seq<Stmt>)
    decreases ss
  {
    |ss| == 0 || (SingleStmt(ss[0]) && SingleBlock(ss[1..]))
  }

  lemma {:induction false} ExprSeen(e: Expr, env: Env)
    ensures ExprUses(e, env, false) <= ExprUses(e, env, true)
    ensures SingleExpr(e) ==> ExprUses(e, env, false) == ExprUses(e, env, true)
    decreases e
  {
    match e
    case Id(_) =>
    case Leaf =>
    case Compound(parts) => ExprsSeen(parts, env);
    case Function(id, params, body) => BlockSeen(body, EnterFunction(env, id, params));
  }

  lemma {:induction false} ExprsSeen(es: seq<Expr>, env: Env)
    ensures ExprsUses(es, env, false) <= ExprsUses(es, env, true)
    ensures SingleExprs(es) ==> ExprsUses(es, env, false) == ExprsUses(es, env, true)
    decreases es, 0
  {
    if |es| > 0 {
      hide ExprUses, SingleExpr;
      ExprSeen(es[0], env);
      ExprsSeen(es[1..], env);
    }
  }

  lemma {:induction false} TargetsSeen(isLocal: bool, ts: seq<Expr>, env: Env)
    ensures TargetsUses(isLocal, ts, env, false) <= TargetsUses(isLocal, ts, env, true)
    ensures SingleExprs(ts) ==> TargetsUses(isLocal, ts, env, false) == TargetsUses(isLocal, ts, env, true)
    decreases ts
  {
    if |ts| > 0 {
      hide ExprUses, SingleExpr, Declare;
      if isLocal && ts[0].Id? {
        TargetsSeen(isLocal, ts[1..], Declare(env, ts[0].name));
      } else {
        ExprSeen(ts[0], env);
        TargetsSeen(isLocal, ts[1..], env);
      }
    }
  }

  lemma {:induction false} ItersSeen(iters: seq<Expr>, env: Env)
    ensures ItersUses(iters, env, false) <= ItersUses(iters, env, true)
    ensures |iters| <= 1 && SingleExprs(iters) ==> ItersUses(iters, env, false) == ItersUses(iters, env, true)
    decreases iters
  {
    if |iters| > 0 {
      hide ExprUses, SingleExpr;
      ExprSeen(iters[0], env);
      assert |iters| == 1 ==> ExprsUses(iters[1..], env, true) == {};
    }
  }

  lemma {:induction false} StmtSeen(s: Stmt, env: Env)
    ensures StmtUses(s, env, false) <= StmtUses(s, env, true)
    ensures SingleStmt(s) ==> StmtUses(s, env, false) == StmtUses(s, env, true)
    decreases s
  {
    hide ExprUses, ExprsUses, TargetsUses, BlockUses, ItersUses, SingleExpr, SingleExprs, SingleBlock;
    hide AfterBlock, Enter, Declare, DeclareAll;
    match s
    case Assign(isLocal, targets, values) => ExprsSeen(values, env); TargetsSeen(isLocal, targets, env);
    case If(cond, thn, els) => ExprSeen(cond, env); BlockSeen(thn, Enter(env)); BlockSeen(els, Enter(env));
    case Do(body) => BlockSeen(body, Enter(env));
    case While(cond, body) => ExprSeen(cond, env); BlockSeen(body, Enter(env));
    case Repeat(body, cond) => BlockSeen(body, Enter(env)); ExprSeen(cond, AfterBlock(Enter(env), body));
    case ForNumeric(index, bounds, body) => ExprsSeen(bounds, env); BlockSeen(body, Declare(Enter(env), index));
    case ForGeneric(vars, iters, body) => ItersSeen(iters, env); BlockSeen(body, DeclareAll(Enter(env), vars));
    case Return(values) => ExprsSeen(values, env);
    case ExprStmt(e) => ExprSeen(e, env);
  }

  /** The analysis sees no use that is not there, and all of them when every generic `for`
      has a single iterator expression. */
  lemma {:induction false} BlockSeen(ss: seq<Stmt>, env: Env)
    ensures BlockUses(ss, env, false) <= BlockUses(ss, env, true)
    ensures SingleBlock(ss) ==> BlockUses(ss, env, false) == BlockUses(ss, env, true)
    decreases ss
  {
    if |ss| > 0 {
      hide StmtUses, SingleStmt, After;
      StmtSeen(ss[0], env);
      BlockSeen(ss[1..], After(env, ss[0]));
    }
  }

  /** Under lexical scoping, everything a program's closures capture. */
  ghost function LexicalCaptures(program: seq<Stmt>): set<Fact> {
    Captures(BlockUses(program, ChunkEnv(), true))
  }

  /** What the analysis answers. */
  ghost function SeenCaptures(program: seq<Stmt>): set<Fact> {
    Captures(BlockUses(program, ChunkEnv(), false))
  }

  /** Another use captures `f` as well. */
  ghost predicate AlsoCaptured(uses: set<Use>, f: Fact) {
    exists v :: v in uses && f in UseFacts(v.env, v.name)
  }

  /** The analysis never adds a capture. It is complete exactly when everything that a use in a
      second or later iterator expression captures is captured by a use elsewhere as well, and in
      particular when there are no such expressions. */
  lemma {:induction false} SeenIsLexical(program: seq<Stmt>)
    ensures SeenCaptures(program) <= LexicalCaptures(program)
    ensures SingleBlock(program) ==> SeenCaptures(program) == LexicalCaptures(program)
    ensures var every, seen := BlockUses(program, ChunkEnv(), true), BlockUses(program, ChunkEnv(), false);
            SeenCaptures(program) == LexicalCaptures(program) <==>
            forall u, f :: u in every - seen && f in UseFacts(u.env, u.name) ==> AlsoCaptured(seen, f)
  {
    hide BlockUses, UseFacts, SingleBlock;
    BlockSeen(program, ChunkEnv());
    var every, seen := BlockUses(program, ChunkEnv(), true), BlockUses(program, ChunkEnv(), false);
    forall f
      ensures f in SeenCaptures(program) <==> AlsoCaptured(seen, f)
      ensures f in LexicalCaptures(program) <==> AlsoCaptured(every, f)
    {}
  }

  /** `function outer(t) return function() for k in next, t do end end end`. */
  function ListIterator(): seq<Stmt> {
    [ExprStmt(Function(1, ["t"],
       [Return([Function(2, [], [ForGeneric(["k"], [Id("next"), Id("t")], [])])])]))]
  }

  lemma {:induction false} BlockOfOne(s: Stmt, env: Env)
    ensures BlockUses([s], env, true) == StmtUses(s, env, true)
  {
    hide StmtUses;
    assert [s][0] == s && [s][1..] == [];
  }

  /** Here `t` belongs to `outer` and is used in the inner function, and the analysis misses it. */
  lemma {:induction false} ListIteratorMissed()
    ensures Boxed(1, "t") in LexicalCaptures(ListIterator()) && Up(2, "t") in LexicalCaptures(ListIterator())
    ensures SeenCaptures(ListIterator()) == {}
  {
    hide BlockUses, SeenCaptures, ExprUses, UseFacts;
    ListIteratorSeen();
    var outer: Env := EnterFunction(ChunkEnv(), 1, ["t"]);
    var env: Env := EnterFunction(outer, 2, []);
    var u := Use(env, "t");
    var loop := ForGeneric(["k"], [Id("next"), Id("t")], []);
    IteratorUse(env);
    NestedUse(u, loop, env, Function(2, [], [loop]), outer);
    var ret := Return([Function(2, [], [loop])]);
    ReturnUse(u, Function(2, [], [loop]), outer);
    NestedUse(u, ret, outer, Function(1, ["t"], [ret]), ChunkEnv());
    BlockOfOne(ExprStmt(Function(1, ["t"], [ret])), ChunkEnv());
    OwnerOfT(env);
    CapturedUse(BlockUses(ListIterator(), ChunkEnv(), true), u, 1);
  }

  lemma {:induction false} ListIteratorSeen()
    ensures SeenCaptures(ListIterator()) == {}
  {}

  lemma {:induction false} ReturnUse(u: Use, e: Expr, env: Env)
    requires u in ExprUses(e, env, true)
    ensures u in StmtUses(Return([e]), env, true)
  {
    hide ExprUses;
    assert [e][0] == e;
  }

  lemma {:induction false} IteratorUse(env: Env)
    ensures Use(env, "t") in StmtUses(ForGeneric(["k"], [Id("next"), Id("t")], []), env, true)
  {
    var iters := [Id("next"), Id("t")];
    assert iters[1..] == [Id("t")];
    assert Use(env, "t") in ExprsUses(iters[1..], env, true);
  }

  lemma {:induction false} NestedUse(u: Use, s: Stmt, inner: Env, f: Expr, env: Env)
    requires f.Function? && f.body == [s] && inner == EnterFunction(env, f.id, f.params)
    requires u in StmtUses(s, inner, true)
    ensures u in ExprUses(f, env, true)
  {
    hide StmtUses;
    BlockOfOne(s, inner);
  }

  lemma {:induction false} OwnerOfT(env: Env)
    requires |env| == 3 && env[1].blocks == [set p | p in ["t"] && p != "..."] && !Visible(env[2], "t")
    ensures Owner(env, 2, "t") == 1
  {
    assert "t" in env[1].blocks[0];
  }
}
