/** What is captured, in terms of where names occur: every place of a program where a name is
    used, and the names in scope there, found by walking through all parts of all statements. */
module Occurrences {
  import opened Closures

  // ---------------------------------------------------------------------------
  // Scopes
  // ---------------------------------------------------------------------------

  /** A function around a place, and its names that are in scope there. */
  datatype Scope = Scope(fid: nat, names: set<string>)

  /** More names in the innermost function. */
  ghost function With(at: seq<Scope>, names: set<string>): (r: seq<Scope>)
    requires |at| > 0
    ensures |r| == |at|
  {
    at[|at| - 1 := Scope(at[|at| - 1].fid, at[|at| - 1].names + names)]
  }

  /** The names a statement declares for the statements after it. */
  ghost function Declared(s: Stmt): set<string> {
    if s.Assign? && s.isLocal then TargetNames(s.targets, |s.targets|) else {}
  }

  /** The names among the first `n` targets. */
  ghost function TargetNames(targets: seq<Expr>, n: nat): set<string>
    requires n <= |targets|
  {
    set i | 0 <= i < n && targets[i].Id? :: targets[i].name
  }

  /** The names the first `n` statements of a block declare. */
  ghost function Locals(ss: seq<Stmt>, n: nat): set<string>
    requires n <= |ss|
  {
    set i, x | 0 <= i < n && x in Declared(ss[i]) :: x
  }

  // ---------------------------------------------------------------------------
  // Occurrences
  // ---------------------------------------------------------------------------

  /** In `e`, which stands where `around` is in scope, `name` is used where `at` is. With `all`
      unset, the iterator expressions of a generic `for` after the first are not looked at. */
  ghost predicate OccursIn(e: Expr, around: seq<Scope>, name: string, at: seq<Scope>, all: bool)
    requires |around| > 0
    decreases e
  {
    match e
    case Id(n) => n == name && at == around
    case Leaf => false
    case Compound(parts) => exists i :: 0 <= i < |parts| && OccursIn(parts[i], around, name, at, all)
    case Function(id, params, body) =>
      OccursInBlock(body, around + [Scope(id, (set p | p in params) - {"..."})], name, at, all)
  }

  ghost predicate OccursInBlock(ss: seq<Stmt>, around: seq<Scope>, name: string, at: seq<Scope>, all: bool)
    requires |around| > 0
    decreases ss
  {
    exists i :: 0 <= i < |ss| && OccursInStmt(ss[i], With(around, Locals(ss, i)), name, at, all)
  }

  /** Locals are in scope after their statement, the names of a loop in its body only, the locals
      of a repeat body in its condition as well. The targets of a local declaration that are
      names are no uses. */
  ghost predicate OccursInStmt(s: Stmt, around: seq<Scope>, name: string, at: seq<Scope>, all: bool)
    requires |around| > 0
    decreases s
  {
    match s
    case Assign(isLocal, targets, values) =>
      || (exists i :: 0 <= i < |values| && OccursIn(values[i], around, name, at, all))
      || (exists i :: 0 <= i < |targets| && !(isLocal && targets[i].Id?) &&
            OccursIn(targets[i], if isLocal then With(around, TargetNames(targets, i)) else around, name, at, all))
    case If(cond, thn, els) =>
      || OccursIn(cond, around, name, at, all)
      || OccursInBlock(thn, around, name, at, all)
      || OccursInBlock(els, around, name, at, all)
    case Do(body) => OccursInBlock(body, around, name, at, all)
    case While(cond, body) => OccursIn(cond, around, name, at, all) || OccursInBlock(body, around, name, at, all)
    case Repeat(body, cond) =>
      OccursInBlock(body, around, name, at, all) || OccursIn(cond, With(around, Locals(body, |body|)), name, at, all)
    case ForNumeric(index, bounds, body) =>
      || (exists i :: 0 <= i < |bounds| && OccursIn(bounds[i], around, name, at, all))
      || OccursInBlock(body, With(around, {index}), name, at, all)
    case ForGeneric(vars, iters, body) =>
      || (exists i :: 0 <= i < |iters| && (all || i == 0) && OccursIn(iters[i], around, name, at, all))
      || OccursInBlock(body, With(around, set v | v in vars), name, at, all)
    case Return(values) => exists i :: 0 <= i < |values| && OccursIn(values[i], around, name, at, all)
    case ExprStmt(e) => OccursIn(e, around, name, at, all)
  }

  // ---------------------------------------------------------------------------
  // Environments and scopes
  // ---------------------------------------------------------------------------

  ghost function NamesOf(l: Level): set<string> {
    set i, x | 0 <= i < |l.blocks| && x in l.blocks[i] :: x
  }

  /** An environment without its division into blocks. */
  ghost function Flat(env: Env): (at: seq<Scope>)
    ensures |at| == |env|
  {
    seq(|env|, k requires 0 <= k < |env| => Scope(env[k].fid, NamesOf(env[k])))
  }

  lemma {:induction false} WithNone(at: seq<Scope>)
    requires |at| > 0
    ensures With(at, {}) == at
  {
    assert at[|at| - 1].names + {} == at[|at| - 1].names;
  }

  lemma {:induction false} WithTwo(at: seq<Scope>, a: set<string>, b: set<string>)
    requires |at| > 0
    ensures With(With(at, a), b) == With(at, a + b)
  {
    assert at[|at| - 1].names + a + b == at[|at| - 1].names + (a + b);
  }

  lemma {:induction false} FlatDeclare(env: Env, name: string)
    ensures Flat(Declare(env, name)) == With(Flat(env), {name})
  {
    var top := |env| - 1;
    var l, m := env[top], Declare(env, name)[top];
    var b := |l.blocks| - 1;
    forall x
      ensures x in NamesOf(m) <==> x in NamesOf(l) || x == name
    {
      if x in NamesOf(l) {
        var i :| 0 <= i < |l.blocks| && x in l.blocks[i];
        assert x in m.blocks[i];
      }
      if x == name {
        assert x in m.blocks[if b < 0 then 0 else b];
      }
    }
    assert NamesOf(m) == NamesOf(l) + {name};
  }

  lemma {:induction false} FlatEnter(env: Env)
    ensures Flat(Enter(env)) == Flat(env)
  {
    var top := |env| - 1;
    var l, m := env[top], Enter(env)[top];
    forall x
      ensures x in NamesOf(m) <==> x in NamesOf(l)
    {
      if x in NamesOf(l) {
        var i :| 0 <= i < |l.blocks| && x in l.blocks[i];
        assert x in m.blocks[i];
      }
    }
    assert NamesOf(m) == NamesOf(l);
  }

  lemma {:induction false} FlatFunction(env: Env, id: nat, params: seq<string>)
    ensures Flat(EnterFunction(env, id, params)) == Flat(env) + [Scope(id, (set p | p in params) - {"..."})]
  {
    var inner := EnterFunction(env, id, params);
    var names := set p | p in params && p != "...";
    assert inner[|env|].blocks[0] == names;
    assert NamesOf(inner[|env|]) == names == (set p | p in params) - {"..."};
  }

  lemma {:induction false} FlatDeclareAll(env: Env, names: seq<string>)
    ensures Flat(DeclareAll(env, names)) == With(Flat(env), set x | x in names)
    decreases |names|
  {
    hide Flat, Declare, With;
    if |names| == 0 {
      WithNone(Flat(env));
      assert (set x | x in names) == {};
    } else {
      FlatDeclare(env, names[0]);
      FlatDeclareAll(Declare(env, names[0]), names[1..]);
      WithTwo(Flat(env), {names[0]}, set x | x in names[1..]);
      assert {names[0]} + (set x | x in names[1..]) == (set x | x in names) by {
        assert names == [names[0]] + names[1..];
      }
    }
  }

  lemma {:induction false} TargetNamesShift(targets: seq<Expr>, n: nat)
    requires n < |targets|
    ensures TargetNames(targets, n + 1) ==
            (if targets[0].Id? then {targets[0].name} else {}) + TargetNames(targets[1..], n)
  {
    forall x
      ensures x in TargetNames(targets, n + 1) <==>
              (targets[0].Id? && x == targets[0].name) || x in TargetNames(targets[1..], n)
    {
      if x in TargetNames(targets, n + 1) {
        var i :| 0 <= i < n + 1 && targets[i].Id? && targets[i].name == x;
        if i > 0 {
          assert targets[1..][i - 1] == targets[i];
        }
      }
      if x in TargetNames(targets[1..], n) {
        var i :| 0 <= i < n && targets[1..][i].Id? && targets[1..][i].name == x;
        assert targets[i + 1] == targets[1..][i];
      }
    }
  }

  lemma {:induction false} FlatDeclareTargets(env: Env, targets: seq<Expr>)
    ensures Flat(DeclareTargets(env, targets)) == With(Flat(env), TargetNames(targets, |targets|))
    decreases |targets|
  {
    hide Flat, Declare, With;
    if |targets| == 0 {
      WithNone(Flat(env));
      assert TargetNames(targets, 0) == {};
    } else {
      TargetNamesShift(targets, |targets| - 1);
      if targets[0].Id? {
        FlatDeclare(env, targets[0].name);
        FlatDeclareTargets(Declare(env, targets[0].name), targets[1..]);
        WithTwo(Flat(env), {targets[0].name}, TargetNames(targets[1..], |targets| - 1));
      } else {
        FlatDeclareTargets(env, targets[1..]);
        assert {} + TargetNames(targets[1..], |targets| - 1) == TargetNames(targets[1..], |targets| - 1);
      }
    }
  }

  lemma {:induction false} FlatAfter(env: Env, s: Stmt)
    ensures Flat(After(env, s)) == With(Flat(env), Declared(s))
  {
    if s.Assign? && s.isLocal {
      FlatDeclareTargets(env, s.targets);
    } else {
      WithNone(Flat(env));
    }
  }

  lemma {:induction false} LocalsShift(ss: seq<Stmt>, n: nat)
    requires n < |ss|
    ensures Locals(ss, n + 1) == Declared(ss[0]) + Locals(ss[1..], n)
  {
    hide Declared;
    forall x
      ensures x in Locals(ss, n + 1) <==> x in Declared(ss[0]) || x in Locals(ss[1..], n)
    {
      if x in Locals(ss, n + 1) {
        var i :| 0 <= i < n + 1 && x in Declared(ss[i]);
        if i > 0 {
          assert ss[1..][i - 1] == ss[i];
        }
      }
      if x in Locals(ss[1..], n) {
        var i :| 0 <= i < n && x in Declared(ss[1..][i]);
        assert ss[i + 1] == ss[1..][i];
      }
    }
  }

  lemma {:induction false} FlatAfterBlock(env: Env, ss: seq<Stmt>)
    ensures Flat(AfterBlock(env, ss)) == With(Flat(env), Locals(ss, |ss|))
    decreases |ss|
  {
    hide Flat, After, With, Declared;
    if |ss| == 0 {
      WithNone(Flat(env));
      assert Locals(ss, 0) == {};
    } else {
      FlatAfter(env, ss[0]);
      FlatAfterBlock(After(env, ss[0]), ss[1..]);
      LocalsShift(ss, |ss| - 1);
      WithTwo(Flat(env), Declared(ss[0]), Locals(ss[1..], |ss| - 1));
    }
  }

  // ---------------------------------------------------------------------------
  // Uses are occurrences
  // ---------------------------------------------------------------------------

  ghost predicate HasUse(uses: set<Use>, name: string, at: seq<Scope>) {
    exists u :: u in uses && u.name == name && Flat(u.env) == at
  }

  lemma {:induction false} HasUseTwo(a: set<Use>, b: set<Use>, name: string, at: seq<Scope>)
    ensures HasUse(a + b, name, at) <==> HasUse(a, name, at) || HasUse(b, name, at)
  {
    hide Flat;
  }

  lemma {:induction false} NoUse(name: string, at: seq<Scope>)
    ensures !HasUse({}, name, at)
  {}

  ghost predicate OccursInSome(es: seq<Expr>, around: seq<Scope>, name: string, at: seq<Scope>, all: bool)
    requires |around| > 0
  {
    exists i :: 0 <= i < |es| && OccursIn(es[i], around, name, at, all)
  }

  lemma {:induction false} SomeSteps(es: seq<Expr>, around: seq<Scope>, name: string, at: seq<Scope>, all: bool)
    requires |around| > 0
    ensures |es| == 0 ==> !OccursInSome(es, around, name, at, all)
    ensures |es| > 0 ==> (OccursInSome(es, around, name, at, all) <==>
              OccursIn(es[0], around, name, at, all) || OccursInSome(es[1..], around, name, at, all))
  {
    hide OccursIn;
    if |es| > 0 {
      if i :| 0 <= i < |es| && OccursIn(es[i], around, name, at, all) {
        if i > 0 {
          assert OccursIn(es[1..][i - 1], around, name, at, all);
        }
      }
      if i :| 0 <= i < |es[1..]| && OccursIn(es[1..][i], around, name, at, all) {
        assert OccursIn(es[i + 1], around, name, at, all);
      }
    }
  }

  lemma {:induction false} ExprOccurs(e: Expr, env: Env, all: bool, name: string, at: seq<Scope>)
    ensures HasUse(ExprUses(e, env, all), name, at) <==> OccursIn(e, Flat(env), name, at, all)
    decreases e, 0
  {
    hide Flat, OccursInBlock;
    match e
    case Id(n) => assert Use(env, n) in ExprUses(e, env, all);
    case Leaf => NoUse(name, at);
    case Compound(parts) => ExprsOccur(parts, env, all, name, at);
    case Function(id, params, body) =>
      FlatFunction(env, id, params);
      BlockOccurs(body, EnterFunction(env, id, params), all, name, at);
  }

  lemma {:induction false} ExprsOccur(es: seq<Expr>, env: Env, all: bool, name: string, at: seq<Scope>)
    ensures HasUse(ExprsUses(es, env, all), name, at) <==> OccursInSome(es, Flat(env), name, at, all)
    decreases es, 0
  {
    hide Flat, OccursIn, ExprUses, HasUse, OccursInSome;
    SomeSteps(es, Flat(env), name, at, all);
    if |es| == 0 {
      NoUse(name, at);
    } else {
      ExprOccurs(es[0], env, all, name, at);
      ExprsOccur(es[1..], env, all, name, at);
      HasUseTwo(ExprUses(es[0], env, all), ExprsUses(es[1..], env, all), name, at);
    }
  }

  /** What the targets after the first see. */
  ghost function AfterTarget(isLocal: bool, t: Expr, around: seq<Scope>): (r: seq<Scope>)
    requires |around| > 0
    ensures |r| == |around|
  {
    if isLocal && t.Id? then With(around, {t.name}) else around
  }

  ghost function TargetScope(isLocal: bool, ts: seq<Expr>, i: nat, around: seq<Scope>): (r: seq<Scope>)
    requires |around| > 0 && i <= |ts|
    ensures |r| == |around|
  {
    if isLocal then With(around, TargetNames(ts, i)) else around
  }

  /** Some target that is no declared name has an occurrence. */
  ghost predicate OccursInTarget(
    isLocal: bool, ts: seq<Expr>, around: seq<Scope>, name: string, at: seq<Scope>, all: bool)
    requires |around| > 0
  {
    exists i :: 0 <= i < |ts| && !(isLocal && ts[i].Id?) &&
      OccursIn(ts[i], TargetScope(isLocal, ts, i, around), name, at, all)
  }

  lemma {:induction false} TargetScopes(isLocal: bool, ts: seq<Expr>, i: nat, around: seq<Scope>)
    requires |around| > 0 && i < |ts|
    ensures TargetScope(isLocal, ts, 0, around) == around
    ensures TargetScope(isLocal, ts, i + 1, around)
         == TargetScope(isLocal, ts[1..], i, AfterTarget(isLocal, ts[0], around))
  {
    hide With, TargetNames;
    assert TargetNames(ts, 0) == {} by {
      NoTargets(ts);
    }
    WithNone(around);
    if isLocal {
      TargetNamesShift(ts, i);
      if ts[0].Id? {
        WithTwo(around, {ts[0].name}, TargetNames(ts[1..], i));
      } else {
        assert {} + TargetNames(ts[1..], i) == TargetNames(ts[1..], i);
      }
    }
  }

  lemma {:induction false} NoTargets(ts: seq<Expr>)
    ensures TargetNames(ts, 0) == {}
  {}

  lemma {:induction false} TargetSteps(
    isLocal: bool, ts: seq<Expr>, around: seq<Scope>, name: string, at: seq<Scope>, all: bool)
    requires |around| > 0
    ensures |ts| == 0 ==> !OccursInTarget(isLocal, ts, around, name, at, all)
    ensures |ts| > 0 ==> (OccursInTarget(isLocal, ts, around, name, at, all) <==>
              (!(isLocal && ts[0].Id?) && OccursIn(ts[0], around, name, at, all)) ||
              OccursInTarget(isLocal, ts[1..], AfterTarget(isLocal, ts[0], around), name, at, all))
  {
    hide OccursIn, With, TargetNames, AfterTarget;
    if |ts| > 0 {
      var next := AfterTarget(isLocal, ts[0], around);
      TargetScopes(isLocal, ts, 0, around);
      if i :| 0 <= i < |ts| && !(isLocal && ts[i].Id?) &&
              OccursIn(ts[i], TargetScope(isLocal, ts, i, around), name, at, all) {
        if i > 0 {
          TargetScopes(isLocal, ts, i - 1, around);
          assert ts[1..][i - 1] == ts[i];
          assert OccursIn(ts[1..][i - 1], TargetScope(isLocal, ts[1..], i - 1, next), name, at, all);
        }
      }
      if i :| 0 <= i < |ts[1..]| && !(isLocal && ts[1..][i].Id?) &&
              OccursIn(ts[1..][i], TargetScope(isLocal, ts[1..], i, next), name, at, all) {
        TargetScopes(isLocal, ts, i, around);
        assert OccursIn(ts[i + 1], TargetScope(isLocal, ts, i + 1, around), name, at, all);
      }
      if !(isLocal && ts[0].Id?) && OccursIn(ts[0], around, name, at, all) {
        assert OccursIn(ts[0], TargetScope(isLocal, ts, 0, around), name, at, all);
      }
    }
  }

  lemma {:induction false} TargetsOccur(isLocal: bool, ts: seq<Expr>, env: Env, all: bool, name: string, at: seq<Scope>)
    ensures HasUse(TargetsUses(isLocal, ts, env, all), name, at) <==>
            OccursInTarget(isLocal, ts, Flat(env), name, at, all)
    decreases ts
  {
    hide Flat, OccursIn, ExprUses, HasUse, OccursInTarget, With, Declare;
    TargetSteps(isLocal, ts, Flat(env), name, at, all);
    if |ts| == 0 {
      NoUse(name, at);
    } else if isLocal && ts[0].Id? {
      FlatDeclare(env, ts[0].name);
      TargetsOccur(isLocal, ts[1..], Declare(env, ts[0].name), all, name, at);
    } else {
      ExprOccurs(ts[0], env, all, name, at);
      TargetsOccur(isLocal, ts[1..], env, all, name, at);
      HasUseTwo(ExprUses(ts[0], env, all), TargetsUses(isLocal, ts[1..], env, all), name, at);
    }
  }

  /** Some iterator expression that is looked at has an occurrence. */
  ghost predicate OccursInIter(iters: seq<Expr>, around: seq<Scope>, name: string, at: seq<Scope>, all: bool)
    requires |around| > 0
  {
    exists i :: 0 <= i < |iters| && (all || i == 0) && OccursIn(iters[i], around, name, at, all)
  }

  lemma {:induction false} ItersOccur(iters: seq<Expr>, env: Env, all: bool, name: string, at: seq<Scope>)
    ensures HasUse(ItersUses(iters, env, all), name, at) <==> OccursInIter(iters, Flat(env), name, at, all)
    decreases iters
  {
    hide Flat, OccursIn, ExprUses, ExprsUses, HasUse;
    if |iters| == 0 {
      NoUse(name, at);
    } else if all {
      ExprsOccur(iters, env, all, name, at);
      SomeSteps(iters, Flat(env), name, at, all);
    } else {
      ExprOccurs(iters[0], env, all, name, at);
    }
  }

  lemma {:induction false} BlockSteps(ss: seq<Stmt>, around: seq<Scope>, name: string, at: seq<Scope>, all: bool)
    requires |around| > 0
    ensures |ss| == 0 ==> !OccursInBlock(ss, around, name, at, all)
    ensures |ss| > 0 ==> (OccursInBlock(ss, around, name, at, all) <==>
              OccursInStmt(ss[0], around, name, at, all) ||
              OccursInBlock(ss[1..], With(around, Declared(ss[0])), name, at, all))
  {
    hide OccursInStmt, Declared, With, Locals;
    if |ss| > 0 {
      var next := With(around, Declared(ss[0]));
      LocalScope(ss, 0, around);
      if i :| 0 <= i < |ss| && OccursInStmt(ss[i], With(around, Locals(ss, i)), name, at, all) {
        if i > 0 {
          LocalScope(ss, i - 1, around);
          assert ss[1..][i - 1] == ss[i];
          assert OccursInStmt(ss[1..][i - 1], With(next, Locals(ss[1..], i - 1)), name, at, all);
        }
      }
      if i :| 0 <= i < |ss[1..]| && OccursInStmt(ss[1..][i], With(next, Locals(ss[1..], i)), name, at, all) {
        LocalScope(ss, i, around);
        assert OccursInStmt(ss[i + 1], With(around, Locals(ss, i + 1)), name, at, all);
      }
      if OccursInStmt(ss[0], around, name, at, all) {
        assert OccursInStmt(ss[0], With(around, Locals(ss, 0)), name, at, all);
      }
    }
  }

  lemma {:induction false} LocalScope(ss: seq<Stmt>, i: nat, around: seq<Scope>)
    requires |around| > 0 && i < |ss|
    ensures |With(around, Declared(ss[0]))| > 0
    ensures With(around, Locals(ss, 0)) == around
    ensures With(around, Locals(ss, i + 1)) == With(With(around, Declared(ss[0])), Locals(ss[1..], i))
  {
    hide Declared;
    assert Locals(ss, 0) == {};
    WithNone(around);
    LocalsShift(ss, i);
    WithTwo(around, Declared(ss[0]), Locals(ss[1..], i));
  }

  lemma {:induction false} BlockOccurs(ss: seq<Stmt>, env: Env, all: bool, name: string, at: seq<Scope>)
    ensures HasUse(BlockUses(ss, env, all), name, at) <==> OccursInBlock(ss, Flat(env), name, at, all)
    decreases ss, 0
  {
    hide Flat, OccursInStmt, StmtUses, HasUse, OccursInBlock, With, After, Declared;
    BlockSteps(ss, Flat(env), name, at, all);
    if |ss| == 0 {
      NoUse(name, at);
    } else {
      StmtOccurs(ss[0], env, all, name, at);
      FlatAfter(env, ss[0]);
      BlockOccurs(ss[1..], After(env, ss[0]), all, name, at);
      HasUseTwo(StmtUses(ss[0], env, all), BlockUses(ss[1..], After(env, ss[0]), all), name, at);
    }
  }

  /** A statement, by its parts. */
  lemma {:induction false} StmtParts(s: Stmt, around: seq<Scope>, name: string, at: seq<Scope>, all: bool)
    requires |around| > 0
    ensures OccursInStmt(s, around, name, at, all) <==>
            match s
            case Assign(isLocal, targets, values) =>
              OccursInSome(values, around, name, at, all) || OccursInTarget(isLocal, targets, around, name, at, all)
            case If(cond, thn, els) =>
              || OccursIn(cond, around, name, at, all)
              || OccursInBlock(thn, around, name, at, all)
              || OccursInBlock(els, around, name, at, all)
            case Do(body) => OccursInBlock(body, around, name, at, all)
            case While(cond, body) =>
              OccursIn(cond, around, name, at, all) || OccursInBlock(body, around, name, at, all)
            case Repeat(body, cond) =>
              || OccursInBlock(body, around, name, at, all)
              || OccursIn(cond, With(around, Locals(body, |body|)), name, at, all)
            case ForNumeric(index, bounds, body) =>
              OccursInSome(bounds, around, name, at, all) || OccursInBlock(body, With(around, {index}), name, at, all)
            case ForGeneric(vars, iters, body) =>
              || OccursInIter(iters, around, name, at, all)
              || OccursInBlock(body, With(around, set v | v in vars), name, at, all)
            case Return(values) => OccursInSome(values, around, name, at, all)
            case ExprStmt(e) => OccursIn(e, around, name, at, all)
  {
    hide OccursIn, OccursInBlock, With, Locals, TargetNames;
  }

  lemma {:induction false} StmtOccurs(s: Stmt, env: Env, all: bool, name: string, at: seq<Scope>)
    ensures HasUse(StmtUses(s, env, all), name, at) <==> OccursInStmt(s, Flat(env), name, at, all)
    decreases s, 0
  {
    hide Flat, HasUse, OccursIn, OccursInBlock, OccursInSome, OccursInTarget, OccursInIter, OccursInStmt, With, Locals;
    hide ExprUses, ExprsUses, TargetsUses, ItersUses, BlockUses, Enter, Declare, DeclareAll, AfterBlock;
    var inside := Enter(env);
    FlatEnter(env);
    StmtParts(s, Flat(env), name, at, all);
    match s
    case Assign(isLocal, targets, values) =>
      ExprsOccur(values, env, all, name, at);
      TargetsOccur(isLocal, targets, env, all, name, at);
      HasUseTwo(ExprsUses(values, env, all), TargetsUses(isLocal, targets, env, all), name, at);
    case If(cond, thn, els) =>
      ExprOccurs(cond, env, all, name, at);
      BlockOccurs(thn, inside, all, name, at);
      BlockOccurs(els, inside, all, name, at);
      HasUseTwo(ExprUses(cond, env, all), BlockUses(thn, inside, all), name, at);
      HasUseTwo(ExprUses(cond, env, all) + BlockUses(thn, inside, all), BlockUses(els, inside, all), name, at);
    case Do(body) => BlockOccurs(body, inside, all, name, at);
    case While(cond, body) =>
      ExprOccurs(cond, env, all, name, at);
      BlockOccurs(body, inside, all, name, at);
      HasUseTwo(ExprUses(cond, env, all), BlockUses(body, inside, all), name, at);
    case Repeat(body, cond) =>
      BlockOccurs(body, inside, all, name, at);
      FlatAfterBlock(inside, body);
      ExprOccurs(cond, AfterBlock(inside, body), all, name, at);
      HasUseTwo(BlockUses(body, inside, all), ExprUses(cond, AfterBlock(inside, body), all), name, at);
    case ForNumeric(index, bounds, body) =>
      ExprsOccur(bounds, env, all, name, at);
      FlatDeclare(inside, index);
      BlockOccurs(body, Declare(inside, index), all, name, at);
      HasUseTwo(ExprsUses(bounds, env, all), BlockUses(body, Declare(inside, index), all), name, at);
    case ForGeneric(vars, iters, body) =>
      ItersOccur(iters, env, all, name, at);
      FlatDeclareAll(inside, vars);
      BlockOccurs(body, DeclareAll(inside, vars), all, name, at);
      HasUseTwo(ItersUses(iters, env, all), BlockUses(body, DeclareAll(inside, vars), all), name, at);
    case Return(values) => ExprsOccur(values, env, all, name, at);
    case ExprStmt(e) => ExprOccurs(e, env, all, name, at);
  }

  // ---------------------------------------------------------------------------
  // What is captured
  // ---------------------------------------------------------------------------

  /** A use of `name` where `at` is in scope captures `f`: the nearest function `l` with such a
      name is an enclosing one and not the chunk; there it is boxed, and every function from the
      one inside it to the innermost one carries it. */
  ghost predicate CapturedBy(at: seq<Scope>, name: string, f: Fact) {
    exists l: nat :: 0 < l < |at| - 1 && NearestWith(at, name, l) && FactOf(at, name, l, f)
  }

  ghost predicate NearestWith(at: seq<Scope>, name: string, l: nat) {
    l < |at| && name in at[l].names && forall m :: l < m < |at| ==> name !in at[m].names
  }

  ghost predicate FactOf(at: seq<Scope>, name: string, l: nat, f: Fact) {
    l < |at| && (f == Boxed(at[l].fid, name) || exists m :: l < m < |at| && f == Up(at[m].fid, name))
  }

  lemma {:induction false} VisibleNames(l: Level, name: string)
    ensures Visible(l, name) <==> name in NamesOf(l)
  {}

  lemma {:induction false} OwnerNearest(env: Env, k: nat, name: string, l: nat)
    requires k < |env| && 0 < l
    ensures Owner(env, k, name) == l <==>
            l <= k && name in NamesOf(env[l]) && forall m :: l < m <= k ==> name !in NamesOf(env[m])
    decreases k
  {
    hide NamesOf, Visible;
    VisibleNames(env[k], name);
    if k > 0 && !Visible(env[k], name) {
      OwnerNearest(env, k - 1, name, l);
    }
  }

  lemma {:induction false} UseCaptures(u: Use, f: Fact)
    ensures f in UseFacts(u.env, u.name) <==> CapturedBy(Flat(u.env), u.name, f)
  {
    hide NamesOf, Visible, Owner;
    var top := |u.env| - 1;
    var at := Flat(u.env);
    assert forall m :: 0 <= m < |at| ==> at[m].names == NamesOf(u.env[m]);
    forall l: nat | 0 < l <= top
      ensures Owner(u.env, top, u.name) == l <==> NearestWith(at, u.name, l)
    {
      OwnerNearest(u.env, top, u.name, l);
    }
    var o := Owner(u.env, top, u.name);
    if 0 < o < top {
      FactsAt(u, o, f);
    }
  }

  lemma {:induction false} FactsAt(u: Use, l: nat, f: Fact)
    requires 0 < l < |u.env| - 1
    ensures f in ChainFacts(u.env, l, |u.env| - 1, u.name) <==> FactOf(Flat(u.env), u.name, l, f)
  {
    hide NamesOf;
    var at := Flat(u.env);
    assert forall m :: 0 <= m < |at| ==> at[m].fid == u.env[m].fid;
  }

  /** Everything that is captured is captured by an occurrence, and every occurrence captures
      what it needs: for the whole program, and for the part of it the analysis looks at. */
  lemma {:induction false} CapturedExactly(program: seq<Stmt>, all: bool, f: Fact)
    ensures f in Closures.Captures(BlockUses(program, ChunkEnv(), all)) <==>
            exists name, at :: OccursInBlock(program, [Scope(0, {})], name, at, all) && CapturedBy(at, name, f)
  {
    hide BlockUses, UseFacts, OccursInBlock, CapturedBy, Flat;
    var uses := BlockUses(program, ChunkEnv(), all);
    FlatChunk();
    if f in Closures.Captures(uses) {
      var u :| u in uses && f in UseFacts(u.env, u.name);
      UseCaptures(u, f);
      assert HasUse(uses, u.name, Flat(u.env));
      BlockOccurs(program, ChunkEnv(), all, u.name, Flat(u.env));
    }
    if name, at :| OccursInBlock(program, [Scope(0, {})], name, at, all) && CapturedBy(at, name, f) {
      BlockOccurs(program, ChunkEnv(), all, name, at);
      var u :| u in uses && u.name == name && Flat(u.env) == at;
      UseCaptures(u, f);
    }
  }

  lemma {:induction false} FlatChunk()
    ensures Flat(ChunkEnv()) == [Scope(0, {})]
  {
    assert NamesOf(ChunkEnv()[0]) == {};
  }
}
