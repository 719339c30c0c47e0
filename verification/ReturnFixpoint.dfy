/** What the passes over the return counts arrive at: with at most 64 functions the least
    solution of the counting rules, whatever the order of definitions; with more, not always. */
module ReturnFixpoint {
  import opened Numbers
  import opened Options
  import opened Returns

  // ---------------------------------------------------------------------------
  // Order on what is known
  // ---------------------------------------------------------------------------

  ghost predicate Below(syms: seq<Symbol>, k: Known, u: Known)
    requires k.For(syms) && u.For(syms)
  {
    forall f :: 0 <= f < |syms| ==> k.counts[f] <= u.counts[f] && (k.mv[f] ==> u.mv[f])
  }

  ghost predicate SameNatives(syms: seq<Symbol>, k: Known, u: Known)
    requires k.For(syms) && u.For(syms)
  {
    forall f :: 0 <= f < |syms| && !syms[f].Recounted() ==> k.counts[f] == u.counts[f] && k.mv[f] == u.mv[f]
  }

  /** No function returns more than is known of it. */
  ghost predicate Closed(syms: seq<Symbol>, k: Known)
    requires k.For(syms)
  {
    forall f :: 0 <= f < |syms| && syms[f].Recounted() ==> ClosedAt(syms, k, f)
  }

  ghost predicate ClosedAt(syms: seq<Symbol>, k: Known, f: nat)
    requires k.For(syms) && f < |syms| && syms[f].Recounted()
  {
    BodyCount(syms, k, syms[f].def.value) <= k.counts[f] && (BodyMany(syms, k, syms[f].def.value) ==> k.mv[f])
  }

  lemma {:induction false} CountMonotone(syms: seq<Symbol>, k: Known, u: Known, body: seq<Stmt>)
    requires k.For(syms) && u.For(syms) && Below(syms, k, u)
    ensures BodyCount(syms, k, body) <= BodyCount(syms, u, body)
  {
    hide Callee;
    if |body| > 0 {
      CountMonotone(syms, k, u, body[1..]);
      match body[0]
      case If(a, b) =>
        CountMonotone(syms, k, u, a);
        CountMonotone(syms, k, u, b);
      case Body(b) =>
        CountMonotone(syms, k, u, b);
      case _ =>
    }
  }

  lemma {:induction false} ManyMonotone(syms: seq<Symbol>, k: Known, u: Known, body: seq<Stmt>)
    requires k.For(syms) && u.For(syms) && Below(syms, k, u)
    ensures BodyMany(syms, k, body) ==> BodyMany(syms, u, body)
  {
    hide StmtMany;
    if |body| > 0 {
      ManyMonotone(syms, k, u, body[1..]);
      StmtManyMonotone(syms, k, u, body[0]);
    }
  }

  lemma {:induction false} StmtManyMonotone(syms: seq<Symbol>, k: Known, u: Known, s: Stmt)
    requires k.For(syms) && u.For(syms) && Below(syms, k, u)
    ensures StmtMany(syms, k, s) ==> StmtMany(syms, u, s)
  {
    hide BodyMany, ReturnMany;
    match s
    case Return(es) =>
      ReturnMonotone(syms, k, u, es);
    case If(a, b) =>
      ManyMonotone(syms, k, u, a);
      ManyMonotone(syms, k, u, b);
    case Body(b) =>
      ManyMonotone(syms, k, u, b);
    case _ =>
  }

  lemma {:induction false} ReturnMonotone(syms: seq<Symbol>, k: Known, u: Known, es: seq<Expr>)
    requires k.For(syms) && u.For(syms) && Below(syms, k, u)
    ensures ReturnMany(syms, k, es) ==> ReturnMany(syms, u, es)
  {
    hide Tail;
    if |es| > 0 {
      TailMonotone(syms, k, u, es[|es| - 1]);
    }
  }

  lemma {:induction false} TailMonotone(syms: seq<Symbol>, k: Known, u: Known, e: Expr)
    requires k.For(syms) && u.For(syms) && Below(syms, k, u)
    ensures Tail(syms, k, e) ==> Tail(syms, u, e)
  {
    hide Callee, MayBeSeveral;
    if e.Call? && Callee(syms, e.target).Some? {
      var g := Callee(syms, e.target).value;
      assert k.counts[g] <= u.counts[g] && (k.mv[g] ==> u.mv[g]);
    }
  }

  // ---------------------------------------------------------------------------
  // Passes stay between where they start and every closed state above it
  // ---------------------------------------------------------------------------

  lemma {:induction false} RecountGrows(syms: seq<Symbol>, k: Known, f: nat)
    requires k.For(syms) && f < |syms|
    ensures Below(syms, k, Recount(syms, k, f)) && SameNatives(syms, k, Recount(syms, k, f))
  {
    hide BodyCount, BodyMany;
  }

  lemma {:induction false} PassGrows(syms: seq<Symbol>, k: Known, f: nat)
    requires k.For(syms) && f <= |syms|
    ensures Below(syms, k, Pass(syms, k, f)) && SameNatives(syms, k, Pass(syms, k, f))
    decreases |syms| - f
  {
    hide Recount;
    if f < |syms| {
      RecountGrows(syms, k, f);
      PassGrows(syms, Recount(syms, k, f), f + 1);
    }
  }

  lemma {:induction false} PassesGrow(syms: seq<Symbol>, k: Known, n: nat)
    requires k.For(syms)
    ensures Below(syms, k, Passes(syms, k, n)) && SameNatives(syms, k, Passes(syms, k, n))
  {
    hide Pass;
    if n > 0 {
      PassesGrow(syms, k, n - 1);
      PassGrows(syms, Passes(syms, k, n - 1), 0);
    }
  }

  lemma {:induction false} RecountBelow(syms: seq<Symbol>, k: Known, u: Known, f: nat)
    requires k.For(syms) && u.For(syms) && Below(syms, k, u) && Closed(syms, u) && f < |syms|
    ensures Below(syms, Recount(syms, k, f), u)
  {
    hide BodyCount, BodyMany;
    if syms[f].Recounted() {
      var body := syms[f].def.value;
      assert ClosedAt(syms, u, f);
      CountMonotone(syms, k, u, body);
      var counted := Known(k.counts[f := Max(k.counts[f], BodyCount(syms, k, body))], k.mv);
      ManyMonotone(syms, counted, u, body);
    }
  }

  lemma {:induction false} PassBelow(syms: seq<Symbol>, k: Known, u: Known, f: nat)
    requires k.For(syms) && u.For(syms) && Below(syms, k, u) && Closed(syms, u) && f <= |syms|
    ensures Below(syms, Pass(syms, k, f), u)
    decreases |syms| - f
  {
    hide Recount, Closed, Below;
    if f < |syms| {
      RecountBelow(syms, k, u, f);
      PassBelow(syms, Recount(syms, k, f), u, f + 1);
    }
  }

  /** However many passes there are, nothing is counted that a closed state above the start
      does not have. */
  lemma {:induction false} PassesBelow(syms: seq<Symbol>, k: Known, u: Known, n: nat)
    requires k.For(syms) && u.For(syms) && Below(syms, k, u) && Closed(syms, u)
    ensures Below(syms, Passes(syms, k, n), u)
  {
    hide Pass, Closed, Below;
    if n > 0 {
      PassesBelow(syms, k, u, n - 1);
      PassBelow(syms, Passes(syms, k, n - 1), u, 0);
    }
  }

  lemma {:induction false} Antisymmetric(syms: seq<Symbol>, k: Known, u: Known)
    requires k.For(syms) && u.For(syms) && Below(syms, k, u) && Below(syms, u, k)
    ensures k == u
  {
    assert k.counts == u.counts && k.mv == u.mv;
  }

  /** A pass that changes nothing has found a closed state. */
  lemma {:induction false} UnchangedIsClosed(syms: seq<Symbol>, k: Known)
    requires k.For(syms) && Pass(syms, k, 0) == k
    ensures Closed(syms, k)
  {
    hide Pass, ClosedAt;
    UnchangedFrom(syms, k, 0);
  }

  lemma {:induction false} UnchangedFrom(syms: seq<Symbol>, k: Known, f: nat)
    requires k.For(syms) && f <= |syms| && Pass(syms, k, f) == k
    ensures forall g :: f <= g < |syms| && syms[g].Recounted() ==> ClosedAt(syms, k, g)
    decreases |syms| - f
  {
    hide BodyCount, BodyMany;
    if f < |syms| {
      var r := Recount(syms, k, f);
      RecountGrows(syms, k, f);
      PassGrows(syms, r, f + 1);
      Antisymmetric(syms, k, r);
      UnchangedFrom(syms, k, f + 1);
    }
  }

  // ---------------------------------------------------------------------------
  // Counts: every pass raises the functions that return at least `v` values, or none is left
  // ---------------------------------------------------------------------------

  ghost function Functions(syms: seq<Symbol>): set<nat> {
    set f: nat | f < |syms| && syms[f].Recounted()
  }

  ghost function Level(syms: seq<Symbol>, k: Known, v: nat): set<nat>
    requires k.For(syms)
  {
    set f: nat | f < |syms| && syms[f].Recounted() && k.counts[f] >= v
  }

  ghost predicate LevelClosed(syms: seq<Symbol>, k: Known, v: nat, from: nat)
    requires k.For(syms)
  {
    forall f :: from <= f < |syms| && syms[f].Recounted() && BodyCount(syms, k, syms[f].def.value) >= v
                ==> k.counts[f] >= v
  }

  /** Whether a body returns `v` values depends only on which functions do. */
  lemma {:induction false} LevelDecides(syms: seq<Symbol>, k: Known, u: Known, v: nat, body: seq<Stmt>)
    requires k.For(syms) && u.For(syms) && SameNatives(syms, k, u) && v >= 2
    requires Level(syms, k, v) == Level(syms, u, v)
    ensures BodyCount(syms, k, body) >= v <==> BodyCount(syms, u, body) >= v
  {
    hide Level, SameNatives, ReturnCount;
    if |body| > 0 {
      LevelDecides(syms, k, u, v, body[1..]);
      match body[0]
      case Return(es) =>
        LevelDecidesReturn(syms, k, u, v, es);
      case If(a, b) =>
        LevelDecides(syms, k, u, v, a);
        LevelDecides(syms, k, u, v, b);
      case Body(b) =>
        LevelDecides(syms, k, u, v, b);
      case _ =>
    }
  }

  lemma {:induction false} LevelDecidesReturn(syms: seq<Symbol>, k: Known, u: Known, v: nat, es: seq<Expr>)
    requires k.For(syms) && u.For(syms) && SameNatives(syms, k, u) && v >= 2
    requires Level(syms, k, v) == Level(syms, u, v)
    ensures ReturnCount(syms, k, es) >= v <==> ReturnCount(syms, u, es) >= v
  {
    hide Callee;
    if |es| == 1 && es[0].Call? && Callee(syms, es[0].target).Some? {
      var g := Callee(syms, es[0].target).value;
      assert g in Level(syms, k, v) <==> g in Level(syms, u, v);
    }
  }

  lemma {:induction false} LevelTransfers(syms: seq<Symbol>, k: Known, u: Known, v: nat, from: nat)
    requires k.For(syms) && u.For(syms) && SameNatives(syms, k, u) && v >= 2
    requires Level(syms, k, v) == Level(syms, u, v) && LevelClosed(syms, k, v, from)
    ensures LevelClosed(syms, u, v, from)
  {
    hide BodyCount, SameNatives;
    forall f | from <= f < |syms| && syms[f].Recounted() && BodyCount(syms, u, syms[f].def.value) >= v
      ensures u.counts[f] >= v
    {
      LevelDecides(syms, k, u, v, syms[f].def.value);
      assert f in Level(syms, k, v);
    }
  }

  lemma {:induction false} LevelGrows(syms: seq<Symbol>, k: Known, u: Known, v: nat)
    requires k.For(syms) && u.For(syms) && Below(syms, k, u)
    ensures Level(syms, k, v) <= Level(syms, u, v)
  {}

  /** A pass that brings no new function to level `v` finds that level closed. */
  lemma {:induction false} LevelStuck(syms: seq<Symbol>, k: Known, f: nat, v: nat)
    requires k.For(syms) && f <= |syms| && v >= 2 && Level(syms, Pass(syms, k, f), v) == Level(syms, k, v)
    ensures LevelClosed(syms, k, v, f)
    decreases |syms| - f
  {
    hide BodyCount, BodyMany, Below, SameNatives;
    if f < |syms| {
      var r := Recount(syms, k, f);
      RecountGrows(syms, k, f);
      PassGrows(syms, r, f + 1);
      LevelGrows(syms, k, r, v);
      LevelGrows(syms, r, Pass(syms, r, f + 1), v);
      LevelStuck(syms, r, f + 1, v);
      NativesBack(syms, k, r);
      LevelTransfers(syms, r, k, v, f + 1);
      RecountReaches(syms, k, f, v);
    }
  }

  lemma {:induction false} NativesBack(syms: seq<Symbol>, k: Known, u: Known)
    requires k.For(syms) && u.For(syms) && SameNatives(syms, k, u)
    ensures SameNatives(syms, u, k)
  {}

  lemma {:induction false} RecountReaches(syms: seq<Symbol>, k: Known, f: nat, v: nat)
    requires k.For(syms) && f < |syms| && Level(syms, Recount(syms, k, f), v) == Level(syms, k, v)
    ensures syms[f].Recounted() && BodyCount(syms, k, syms[f].def.value) >= v ==> k.counts[f] >= v
  {
    hide BodyCount, BodyMany;
    if syms[f].Recounted() && BodyCount(syms, k, syms[f].def.value) >= v {
      assert f in Level(syms, Recount(syms, k, f), v);
    }
  }

  /** A closed level stays as it is. */
  lemma {:induction false} LevelStays(syms: seq<Symbol>, k: Known, f: nat, v: nat)
    requires k.For(syms) && f <= |syms| && v >= 2 && LevelClosed(syms, k, v, f)
    ensures Level(syms, Pass(syms, k, f), v) == Level(syms, k, v)
    decreases |syms| - f
  {
    hide BodyCount, BodyMany, SameNatives;
    if f < |syms| {
      var r := Recount(syms, k, f);
      RecountGrows(syms, k, f);
      assert Level(syms, r, v) == Level(syms, k, v);
      LevelTransfers(syms, k, r, v, f + 1);
      LevelStays(syms, r, f + 1, v);
    }
  }

  /** What is known before any function is counted. */
  ghost function Bottom(syms: seq<Symbol>, k: Known): (r: Known)
    requires k.For(syms)
    ensures r.For(syms)
  {
    Known(seq(|syms|, i requires 0 <= i < |syms| => if syms[i].Recounted() then 0 else k.counts[i]),
          seq(|syms|, i requires 0 <= i < |syms| => !syms[i].Recounted() && k.mv[i]))
  }

  /** Every function has at least the count its own returns give it. */
  ghost predicate Started(syms: seq<Symbol>, k: Known)
    requires k.For(syms)
  {
    forall f :: 0 <= f < |syms| && syms[f].Recounted() ==>
      BodyCount(syms, Bottom(syms, k), syms[f].def.value) <= k.counts[f]
  }

  lemma {:induction false} EmptyLevelClosed(syms: seq<Symbol>, k: Known, v: nat)
    requires k.For(syms) && Started(syms, k) && v >= 2 && Level(syms, k, v) == {}
    ensures LevelClosed(syms, k, v, 0)
  {
    hide BodyCount;
    var b := Bottom(syms, k);
    assert Level(syms, b, v) == {};
    forall f | 0 <= f < |syms| && syms[f].Recounted() && BodyCount(syms, k, syms[f].def.value) >= v
      ensures k.counts[f] >= v
    {
      LevelDecides(syms, k, b, v, syms[f].def.value);
    }
  }

  lemma {:induction false} LevelProgress(syms: seq<Symbol>, k: Known, v: nat, n: nat)
    requires k.For(syms) && Started(syms, k) && v >= 2
    ensures LevelClosed(syms, Passes(syms, k, n), v, 0) || |Level(syms, Passes(syms, k, n), v)| > n
  {
    hide LevelClosed, Pass, Started, SameNatives, Below;
    if n == 0 {
      if Level(syms, k, v) == {} {
        EmptyLevelClosed(syms, k, v);
      }
    } else {
      var p := Passes(syms, k, n - 1);
      var q := Pass(syms, p, 0);
      LevelProgress(syms, k, v, n - 1);
      PassGrows(syms, p, 0);
      LevelGrows(syms, p, q, v);
      if Level(syms, p, v) == Level(syms, q, v) {
        LevelStuck(syms, p, 0, v);
        LevelTransfers(syms, p, q, v, 0);
      } else {
        if LevelClosed(syms, p, v, 0) {
          LevelStays(syms, p, 0, v);
        }
        SmallerSet(Level(syms, p, v), Level(syms, q, v));
      }
    }
  }

  lemma {:induction false} SmallerSet(a: set<nat>, b: set<nat>)
    requires a < b
    ensures |a| < |b|
  {
    var x :| x in b && x !in a;
    assert a <= b - {x};
    SubsetSize(a, b - {x});
  }

  lemma {:induction false} SubsetSize(a: set<nat>, b: set<nat>)
    requires a <= b
    ensures |a| <= |b|
    decreases b
  {
    if a != b {
      var x :| x in b && x !in a;
      SubsetSize(a, b - {x});
    }
  }

  // ---------------------------------------------------------------------------
  // Several values: every pass marks one more function, or none is left
  // ---------------------------------------------------------------------------

  /** The marked functions, with counts as they were at the start. */
  ghost function Mixed(k0: Known, k: Known): Known {
    Known(k0.counts, k.mv)
  }

  ghost function Marks(syms: seq<Symbol>, k: Known): set<nat>
    requires k.For(syms)
  {
    set f: nat | f < |syms| && syms[f].Recounted() && k.mv[f]
  }

  /** With the counts at the start, no further function is to be marked. */
  ghost predicate MarksClosed(syms: seq<Symbol>, k0: Known, k: Known, from: nat)
    requires k0.For(syms) && k.For(syms)
  {
    forall f :: from <= f < |syms| && syms[f].Recounted() && BodyMany(syms, Mixed(k0, k), syms[f].def.value)
                ==> k.mv[f]
  }

  /** A function that came to return several values since the start is marked: the call it
      returns the values of is a multi-value tail. */
  ghost predicate NewIsMarked(syms: seq<Symbol>, k0: Known, k: Known)
    requires k0.For(syms) && k.For(syms)
  {
    forall f :: 0 <= f < |syms| && k.counts[f] >= 2 ==> k0.counts[f] >= 2 || k.mv[f]
  }

  lemma {:induction false} SeveralIsOwnOrTail(syms: seq<Symbol>, b: Known, k: Known, body: seq<Stmt>)
    requires b.For(syms) && k.For(syms) && BodyCount(syms, k, body) >= 2
    ensures BodyCount(syms, b, body) >= 2 || BodyMany(syms, k, body)
  {
    hide Callee;
    if |body| > 0 {
      if BodyCount(syms, k, body[1..]) >= 2 {
        SeveralIsOwnOrTail(syms, b, k, body[1..]);
      } else {
        match body[0]
        case If(x, y) =>
          if BodyCount(syms, k, x) >= 2 {
            SeveralIsOwnOrTail(syms, b, k, x);
          } else {
            SeveralIsOwnOrTail(syms, b, k, y);
          }
        case Body(x) =>
          SeveralIsOwnOrTail(syms, b, k, x);
        case Return(es) =>
          SeveralReturned(syms, b, k, es);
        case _ =>
      }
    }
  }

  lemma {:induction false} SeveralReturned(syms: seq<Symbol>, b: Known, k: Known, es: seq<Expr>)
    requires b.For(syms) && k.For(syms) && ReturnCount(syms, k, es) >= 2
    ensures ReturnCount(syms, b, es) >= 2 || ReturnMany(syms, k, es)
  {
    hide Callee;
  }

  lemma {:induction false} TailFromMarks(syms: seq<Symbol>, k0: Known, k: Known, body: seq<Stmt>)
    requires k0.For(syms) && k.For(syms) && NewIsMarked(syms, k0, k) && BodyMany(syms, k, body)
    ensures BodyMany(syms, Mixed(k0, k), body)
  {
    hide Tail, NewIsMarked;
    if BodyMany(syms, k, body[1..]) {
      TailFromMarks(syms, k0, k, body[1..]);
    } else {
      match body[0]
      case If(x, y) =>
        if BodyMany(syms, k, x) {
          TailFromMarks(syms, k0, k, x);
        } else {
          TailFromMarks(syms, k0, k, y);
        }
      case Body(x) =>
        TailFromMarks(syms, k0, k, x);
      case Return(es) =>
        OneTailFromMarks(syms, k0, k, es[|es| - 1]);
      case _ =>
    }
  }

  lemma {:induction false} OneTailFromMarks(syms: seq<Symbol>, k0: Known, k: Known, e: Expr)
    requires k0.For(syms) && k.For(syms) && NewIsMarked(syms, k0, k) && Tail(syms, k, e)
    ensures Tail(syms, Mixed(k0, k), e)
  {
    hide Callee, MayBeSeveral;
  }

  lemma {:induction false} BelowMixed(syms: seq<Symbol>, k0: Known, k: Known, u: Known)
    requires k0.For(syms) && k.For(syms) && u.For(syms) && Below(syms, k0, k) && Below(syms, k, u)
    ensures Below(syms, Mixed(k0, k), u)
  {}

  /** One function is recounted: what is new is marked in the same step. */
  lemma {:induction false} RecountMarksNew(syms: seq<Symbol>, k0: Known, k: Known, f: nat)
    requires k0.For(syms) && k.For(syms) && f < |syms|
    requires Started(syms, k0) && NewIsMarked(syms, k0, k)
    ensures NewIsMarked(syms, k0, Recount(syms, k, f))
  {
    hide BodyCount, BodyMany;
    if syms[f].Recounted() {
      var body := syms[f].def.value;
      if k.counts[f] < 2 && BodyCount(syms, k, body) >= 2 {
        SeveralIsOwnOrTail(syms, Bottom(syms, k0), k, body);
        var counted := Known(k.counts[f := Max(k.counts[f], BodyCount(syms, k, body))], k.mv);
        ManyMonotone(syms, k, counted, body);
      }
    }
  }

  lemma {:induction false} PassMarksNew(syms: seq<Symbol>, k0: Known, k: Known, f: nat)
    requires k0.For(syms) && k.For(syms) && f <= |syms|
    requires Started(syms, k0) && NewIsMarked(syms, k0, k)
    ensures NewIsMarked(syms, k0, Pass(syms, k, f))
    decreases |syms| - f
  {
    hide Recount, Started, NewIsMarked;
    if f < |syms| {
      RecountMarksNew(syms, k0, k, f);
      PassMarksNew(syms, k0, Recount(syms, k, f), f + 1);
    }
  }

  lemma {:induction false} PassesMarkNew(syms: seq<Symbol>, k0: Known, n: nat)
    requires k0.For(syms) && Started(syms, k0)
    ensures NewIsMarked(syms, k0, Passes(syms, k0, n))
  {
    hide Pass, Started;
    if n > 0 {
      PassesMarkNew(syms, k0, n - 1);
      PassMarksNew(syms, k0, Passes(syms, k0, n - 1), 0);
    }
  }

  /** A pass that marks nothing finds nothing to mark. */
  lemma {:induction false} MarksStuck(syms: seq<Symbol>, k0: Known, k: Known, f: nat)
    requires k0.For(syms) && k.For(syms) && f <= |syms| && Below(syms, k0, k)
    requires Pass(syms, k, f).mv == k.mv
    ensures MarksClosed(syms, k0, k, f)
    decreases |syms| - f
  {
    hide BodyCount, BodyMany, Below, SameNatives;
    if f < |syms| {
      var r := Recount(syms, k, f);
      RecountGrows(syms, k, f);
      PassGrows(syms, r, f + 1);
      SameMiddle(syms, k, r, Pass(syms, r, f + 1));
      assert r.mv == k.mv;
      BelowThrough(syms, k0, k, r);
      MarksStuck(syms, k0, r, f + 1);
      if syms[f].Recounted() {
        RecountMarks(syms, k0, k, f);
      }
    }
  }

  lemma {:induction false} SameMiddle(syms: seq<Symbol>, k: Known, m: Known, u: Known)
    requires k.For(syms) && m.For(syms) && u.For(syms) && Below(syms, k, m) && Below(syms, m, u) && k.mv == u.mv
    ensures m.mv == k.mv
  {}

  lemma {:induction false} BelowThrough(syms: seq<Symbol>, k: Known, m: Known, u: Known)
    requires k.For(syms) && m.For(syms) && u.For(syms) && Below(syms, k, m) && Below(syms, m, u)
    ensures Below(syms, k, u)
  {}

  lemma {:induction false} RecountMarks(syms: seq<Symbol>, k0: Known, k: Known, f: nat)
    requires k0.For(syms) && k.For(syms) && f < |syms| && Below(syms, k0, k) && syms[f].Recounted()
    ensures BodyMany(syms, Mixed(k0, k), syms[f].def.value) ==> Recount(syms, k, f).mv[f]
  {
    hide BodyCount, BodyMany;
    var body := syms[f].def.value;
    var counted := Known(k.counts[f := Max(k.counts[f], BodyCount(syms, k, body))], k.mv);
    BelowMixed(syms, k0, k, counted);
    ManyMonotone(syms, Mixed(k0, k), counted, body);
  }

  /** When nothing is to be marked, recounting marks nothing. */
  lemma {:induction false} RecountKeepsMarks(syms: seq<Symbol>, k0: Known, k: Known, f: nat)
    requires k0.For(syms) && k.For(syms) && f < |syms|
    requires Started(syms, k0) && NewIsMarked(syms, k0, k) && MarksClosed(syms, k0, k, f)
    ensures Recount(syms, k, f).mv == k.mv
  {
    hide BodyCount, BodyMany;
    if syms[f].Recounted() {
      var body := syms[f].def.value;
      var counted := Known(k.counts[f := Max(k.counts[f], BodyCount(syms, k, body))], k.mv);
      assert NewIsMarked(syms, k0, counted) by {
        if k.counts[f] < 2 && BodyCount(syms, k, body) >= 2 {
          SeveralIsOwnOrTail(syms, Bottom(syms, k0), k, body);
          if BodyMany(syms, k, body) {
            TailFromMarks(syms, k0, k, body);
          }
        }
      }
      if BodyMany(syms, counted, body) {
        TailFromMarks(syms, k0, counted, body);
      }
      assert k.mv[f := k.mv[f]] == k.mv;
    }
  }

  lemma {:induction false} MarksStay(syms: seq<Symbol>, k0: Known, k: Known, f: nat)
    requires k0.For(syms) && k.For(syms) && f <= |syms|
    requires Started(syms, k0) && NewIsMarked(syms, k0, k) && MarksClosed(syms, k0, k, f)
    ensures Pass(syms, k, f).mv == k.mv
    decreases |syms| - f
  {
    hide Recount, Started, NewIsMarked, BodyMany;
    if f < |syms| {
      RecountKeepsMarks(syms, k0, k, f);
      RecountMarksNew(syms, k0, k, f);
      MarksStay(syms, k0, Recount(syms, k, f), f + 1);
    }
  }

  lemma {:induction false} SameMarks(syms: seq<Symbol>, k: Known, u: Known)
    requires k.For(syms) && u.For(syms) && SameNatives(syms, k, u) && Marks(syms, k) == Marks(syms, u)
    ensures k.mv == u.mv
  {
    forall f | 0 <= f < |syms|
      ensures k.mv[f] == u.mv[f]
    {
      assert syms[f].Recounted() ==> (f in Marks(syms, k) <==> f in Marks(syms, u));
    }
  }

  lemma {:induction false} MarksProgress(syms: seq<Symbol>, k: Known, n: nat)
    requires k.For(syms) && Started(syms, k)
    ensures MarksClosed(syms, k, Passes(syms, k, n), 0) || |Marks(syms, Passes(syms, k, n))| >= n
  {
    hide Pass, Started, SameNatives, NewIsMarked, BodyMany;
    if n > 0 {
      var p := Passes(syms, k, n - 1);
      var q := Pass(syms, p, 0);
      MarksProgress(syms, k, n - 1);
      PassGrows(syms, p, 0);
      PassesGrow(syms, k, n - 1);
      PassesMarkNew(syms, k, n - 1);
      if MarksClosed(syms, k, p, 0) {
        MarksStay(syms, k, p, 0);
      } else if Marks(syms, p) == Marks(syms, q) {
        SameMarks(syms, p, q);
        MarksStuck(syms, k, p, 0);
      } else {
        SmallerSet(Marks(syms, p), Marks(syms, q));
      }
    }
  }

  // ---------------------------------------------------------------------------
  // Enough passes
  // ---------------------------------------------------------------------------

  /** As many passes as there are functions reach a closed state. */
  lemma {:induction false} EnoughPasses(syms: seq<Symbol>, k: Known, n: nat)
    requires k.For(syms) && Started(syms, k) && |Functions(syms)| <= n
    ensures Closed(syms, Passes(syms, k, n))
  {
    hide Passes, BodyCount, BodyMany, NewIsMarked, SameNatives;
    var p := Passes(syms, k, n);
    PassesGrow(syms, k, n);
    PassesMarkNew(syms, k, n);
    MarksProgress(syms, k, n);
    forall f | 0 <= f < |syms| && syms[f].Recounted()
      ensures ClosedAt(syms, p, f)
    {
      var body := syms[f].def.value;
      var v := BodyCount(syms, p, body);
      if v >= 2 {
        LevelProgress(syms, k, v, n);
        SubsetSize(Level(syms, p, v), Functions(syms));
      }
      if BodyMany(syms, p, body) && !p.mv[f] {
        TailFromMarks(syms, k, p, body);
        assert f in Functions(syms) && f !in Marks(syms, p);
        SmallerSet(Marks(syms, p), Functions(syms));
      }
    }
  }

  // ---------------------------------------------------------------------------
  // The start the prepass makes
  // ---------------------------------------------------------------------------

  ghost predicate Definitions(syms: seq<Symbol>, order: seq<nat>) {
    forall i :: 0 <= i < |order| ==> order[i] < |syms| && syms[order[i]].Recounted()
  }

  /** The definitions are reached in this order, each is counted when it is reached. */
  ghost function Prepass(syms: seq<Symbol>, k: Known, order: seq<nat>): (r: Known)
    requires k.For(syms) && Definitions(syms, order)
    ensures r.For(syms)
    decreases |order|
  {
    if |order| == 0 then k
    else Prepass(syms, Marked(syms, k, order[0]), order[1..])
  }

  lemma {:induction false} PrepassBelow(syms: seq<Symbol>, k: Known, u: Known, order: seq<nat>)
    requires k.For(syms) && u.For(syms) && Below(syms, k, u) && Closed(syms, u)
    requires Definitions(syms, order)
    ensures Below(syms, Prepass(syms, k, order), u)
    decreases |order|
  {
    hide BodyCount, BodyMany;
    if |order| > 0 {
      var f := order[0];
      assert ClosedAt(syms, u, f);
      CountMonotone(syms, k, u, syms[f].def.value);
      PrepassBelow(syms, Marked(syms, k, f), u, order[1..]);
    }
  }

  /** What `k` says of the functions in `done` is at least what their own returns give. */
  ghost predicate StartedIn(syms: seq<Symbol>, b: Known, k: Known, done: set<nat>)
    requires b.For(syms) && k.For(syms)
  {
    forall f :: 0 <= f < |syms| && syms[f].Recounted() && f in done ==>
      BodyCount(syms, b, syms[f].def.value) <= k.counts[f]
  }

  lemma {:induction false} PrepassStarts(syms: seq<Symbol>, b: Known, k: Known, order: seq<nat>, done: set<nat>)
    requires b.For(syms) && k.For(syms) && b == Bottom(syms, k) && StartedIn(syms, b, k, done)
    requires Definitions(syms, order)
    ensures var r := Prepass(syms, k, order);
            Bottom(syms, r) == b && StartedIn(syms, b, r, done + (set f | f in order)) && r.mv == k.mv
    decreases |order|
  {
    hide BodyCount, BodyMany;
    if |order| == 0 {
      assert done + (set f | f in order) == done;
    } else {
      var f := order[0];
      var m := Marked(syms, k, f);
      CountMonotone(syms, b, k, syms[f].def.value);
      assert Bottom(syms, m) == b;
      PrepassStarts(syms, b, m, order[1..], done + {f});
      assert done + (set g | g in order) == (done + {f}) + (set g | g in order[1..]) by {
        assert order == [f] + order[1..];
      }
    }
  }

  // ---------------------------------------------------------------------------
  // The result
  // ---------------------------------------------------------------------------

  /** `k` is a closed state and below every other one with the same native functions. */
  ghost predicate Least(syms: seq<Symbol>, k: Known)
    requires k.For(syms)
  {
    Closed(syms, k) && forall u: Known :: u.For(syms) && SameNatives(syms, k, u) && Closed(syms, u) ==>
      Below(syms, k, u)
  }

  /** Started in any order of definitions, recounting ends with the least closed state when
      there are at most 64 functions. */
  lemma {:induction false} SettlesToLeast(syms: seq<Symbol>, native: seq<nat>, order: seq<nat>)
    requires |native| == |syms| && |Functions(syms)| <= MAX_PASSES
    requires Definitions(syms, order) && forall f :: f in Functions(syms) ==> f in order
    ensures Least(syms, Passes(syms, Prepass(syms, Unknown(syms, native), order), MAX_PASSES))
  {
    hide Pass, Passes, Prepass, BodyCount, BodyMany, ClosedAt;
    var k0 := Unknown(syms, native);
    var k := Prepass(syms, k0, order);
    var r := Passes(syms, k, MAX_PASSES);
    assert Bottom(syms, k0) == k0;
    PrepassStarts(syms, k0, k0, order, {});
    EnoughPasses(syms, k, MAX_PASSES);
    PassesGrow(syms, k, MAX_PASSES);
    forall u: Known | u.For(syms) && SameNatives(syms, r, u) && Closed(syms, u)
      ensures Below(syms, r, u)
    {
      assert Below(syms, k0, u) by {
        BottomBelow(syms, k0, k, r, u);
      }
      PrepassBelow(syms, k0, u, order);
      PassesBelow(syms, k, u, MAX_PASSES);
    }
  }

  lemma {:induction false} BottomBelow(syms: seq<Symbol>, k0: Known, k: Known, r: Known, u: Known)
    requires k0.For(syms) && k.For(syms) && r.For(syms) && u.For(syms)
    requires k0 == Bottom(syms, k) && SameNatives(syms, k, r) && SameNatives(syms, r, u)
    ensures Below(syms, k0, u)
  {}

  /** However many functions there are, no count is too high. */
  lemma {:induction false} NeverTooHigh(syms: seq<Symbol>, native: seq<nat>, order: seq<nat>, u: Known)
    requires |native| == |syms| && Definitions(syms, order) && forall f :: f in Functions(syms) ==> f in order
    requires u.For(syms) && SameNatives(syms, Unknown(syms, native), u) && Closed(syms, u)
    ensures Below(syms, Passes(syms, Prepass(syms, Unknown(syms, native), order), MAX_PASSES), u)
  {
    hide Pass, Passes, Prepass, BodyCount, BodyMany, Closed;
    var k0 := Unknown(syms, native);
    PrepassBelow(syms, k0, u, order);
    PassesBelow(syms, Prepass(syms, k0, order), u, MAX_PASSES);
  }

  /** The result of recounting every function at once. */
  ghost function All(syms: seq<Symbol>, k: Known): (r: Known)
    requires k.For(syms)
    ensures r.For(syms)
  {
    Known(seq(|syms|, i requires 0 <= i < |syms| =>
            if syms[i].Recounted() then BodyCount(syms, k, syms[i].def.value) else k.counts[i]),
          seq(|syms|, i requires 0 <= i < |syms| =>
            if syms[i].Recounted() then BodyMany(syms, k, syms[i].def.value) else k.mv[i]))
  }

  /** In the least closed state every count is exactly what the body gives. */
  lemma {:induction false} LeastIsFixpoint(syms: seq<Symbol>, k: Known)
    requires k.For(syms) && Least(syms, k)
    ensures All(syms, k) == k
  {
    hide BodyCount, BodyMany;
    var a := All(syms, k);
    assert Below(syms, a, k) by {
      forall f | 0 <= f < |syms| && syms[f].Recounted()
        ensures a.counts[f] <= k.counts[f] && (a.mv[f] ==> k.mv[f])
      {
        assert ClosedAt(syms, k, f);
      }
    }
    assert Closed(syms, a) by {
      forall f | 0 <= f < |syms| && syms[f].Recounted()
        ensures ClosedAt(syms, a, f)
      {
        CountMonotone(syms, a, k, syms[f].def.value);
        ManyMonotone(syms, a, k, syms[f].def.value);
      }
    }
    Antisymmetric(syms, a, k);
  }
}
