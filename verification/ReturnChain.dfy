/** A program with more functions than there are passes, for which 64 passes are too few. */
module ReturnChain {
  import opened Options
  import opened Returns
  import opened ReturnFixpoint

  function NameOf(i: nat): string {
    seq(i + 1, j => 'f')
  }

  /** Function `i` of `n` returns what the next one returns; the last one returns `...`. */
  function Link(n: nat, i: nat): seq<Stmt> {
    if i + 1 < n then [Return([Call(Name(NameOf(i + 1)), false, false)])] else [Return([Vararg(0)])]
  }

  function Chain(n: nat): (syms: seq<Symbol>)
    ensures |syms| == n
  {
    seq(n, i requires 0 <= i < n => Symbol(NameOf(i), true, Some(Link(n, i))))
  }

  /** The last `p` functions are known to return several values. */
  function LastMarked(n: nat, p: nat): (k: Known)
    ensures k.For(Chain(n))
  {
    Known(seq(n, i => 1), seq(n, i => i + p >= n))
  }

  lemma {:induction false} FindsLink(n: nat, i: nat, from: nat)
    requires from <= i < n
    ensures Find(Chain(n), NameOf(i), from) == Some(i)
    decreases i - from
  {
    if from < i {
      assert |Chain(n)[from].name| == from + 1;
      FindsLink(n, i, from + 1);
    }
  }

  lemma {:induction false} NextLink(n: nat, i: nat)
    requires i + 1 < n
    ensures Callee(Chain(n), Name(NameOf(i + 1))) == Some(i + 1)
  {
    FindsLink(n, i + 1, 0);
  }

  /** What one function finds: several values when the next one has them. */
  lemma {:induction false} LinkMany(n: nat, k: Known, i: nat)
    requires i < n && k.For(Chain(n)) && forall f :: 0 <= f < n ==> k.counts[f] <= 1
    ensures BodyMany(Chain(n), k, Link(n, i)) == (i + 1 == n || k.mv[i + 1])
    ensures BodyCount(Chain(n), k, Link(n, i)) == 1
  {
    hide Callee, Find;
    var body := Link(n, i);
    assert body[1..] == [];
    if i + 1 < n {
      NextLink(n, i);
    }
  }

  lemma {:induction false} RecountLink(n: nat, p: nat, i: nat)
    requires i < n && p < n
    ensures Recount(Chain(n), LastMarked(n, p), i) == LastMarked(n, if i + p + 1 == n then p + 1 else p)
  {
    hide BodyCount, BodyMany;
    var k := LastMarked(n, p);
    var q := if i + p + 1 == n then p + 1 else p;
    LinkMany(n, k, i);
    var r := Recount(Chain(n), k, i);
    assert k.counts[i := 1] == k.counts;
    assert r.counts == LastMarked(n, q).counts;
    assert r.mv == LastMarked(n, q).mv;
  }

  /** A pass marks one more function. */
  lemma {:induction false} PassMarksOne(n: nat, p: nat, i: nat)
    requires i + p < n
    ensures Pass(Chain(n), LastMarked(n, p), i) == LastMarked(n, p + 1)
    decreases n - i
  {
    hide Recount, LastMarked, Chain;
    RecountLink(n, p, i);
    if i + p + 1 < n {
      PassMarksOne(n, p, i + 1);
    } else {
      PassMarksNone(n, p + 1, i + 1);
    }
  }

  lemma {:induction false} PassMarksNone(n: nat, p: nat, i: nat)
    requires p <= n < i + p + 1 && i <= n
    ensures Pass(Chain(n), LastMarked(n, p), i) == LastMarked(n, p)
    decreases n - i
  {
    hide Recount, LastMarked, Chain;
    if i < n {
      if p < n {
        RecountLink(n, p, i);
      } else {
        RecountLast(n, i);
      }
      PassMarksNone(n, p, i + 1);
    }
  }

  lemma {:induction false} RecountLast(n: nat, i: nat)
    requires i < n
    ensures Recount(Chain(n), LastMarked(n, n), i) == LastMarked(n, n)
  {
    hide BodyCount, BodyMany;
    var k := LastMarked(n, n);
    LinkMany(n, k, i);
    var r := Recount(Chain(n), k, i);
    assert r.counts == k.counts && r.mv == k.mv;
  }

  lemma {:induction false} PassesMarkOneEach(n: nat, p: nat)
    requires p <= n
    ensures Passes(Chain(n), LastMarked(n, 0), p) == LastMarked(n, p)
  {
    hide Pass, LastMarked, Chain;
    if p > 0 {
      PassesMarkOneEach(n, p - 1);
      PassMarksOne(n, p - 1, 0);
    }
  }

  /** The functions from `i` on in order of definition. */
  function InOrder(n: nat, i: nat): (order: seq<nat>)
    requires i <= n
    ensures |order| == n - i && forall j :: 0 <= j < |order| ==> order[j] == i + j
  {
    seq(n - i, j requires 0 <= j < n - i => i + j)
  }

  lemma {:induction false} PrepassCountsOne(n: nat, i: nat)
    requires i <= n
    ensures Definitions(Chain(n), InOrder(n, i))
    ensures Prepass(Chain(n), Known(seq(n, j => if j < i then 1 else 0), seq(n, j => false)), InOrder(n, i)) ==
            LastMarked(n, 0)
    decreases n - i
  {
    hide BodyCount;
    var k := Known(seq(n, j => if j < i then 1 else 0), seq(n, j => false));
    if i < n {
      LinkMany(n, k, i);
      var next := Known(seq(n, j => if j < i + 1 then 1 else 0), seq(n, j => false));
      assert Marked(Chain(n), k, i).counts == next.counts && k.mv == next.mv;
      assert InOrder(n, i)[1..] == InOrder(n, i + 1);
      PrepassCountsOne(n, i + 1);
    } else {
      assert k.counts == LastMarked(n, 0).counts && k.mv == LastMarked(n, 0).mv;
    }
  }

  /** For every number of functions above 64 there is a program, with its definitions in the
      order of the text, whose first function returns several values without being marked. */
  lemma {:induction false} ChainUnsettled(n: nat, native: seq<nat>)
    requires n > MAX_PASSES && |native| == n
    ensures Definitions(Chain(n), InOrder(n, 0)) && |Functions(Chain(n))| == n
    ensures var r := Passes(Chain(n), Prepass(Chain(n), Unknown(Chain(n), native), InOrder(n, 0)), MAX_PASSES);
            !r.mv[0] && !Closed(Chain(n), r)
    ensures Least(Chain(n), LastMarked(n, n)) && LastMarked(n, n).mv[0]
  {
    hide Pass, Passes, Prepass, Definitions, BodyCount, BodyMany;
    var start := Unknown(Chain(n), native);
    PrepassCountsOne(n, 0);
    assert start.counts == seq(n, j => if j < 0 then 1 else 0) && start.mv == seq(n, j => false);
    PassesMarkOneEach(n, MAX_PASSES);
    var r := LastMarked(n, MAX_PASSES);
    var f := n - MAX_PASSES - 1;
    LinkMany(n, r, f);
    assert !ClosedAt(Chain(n), r, f);
    CountTo(Functions(Chain(n)), n);
    ChainLeast(n);
  }

  lemma {:induction false} CountTo(s: set<nat>, n: nat)
    requires forall i: nat :: i in s <==> i < n
    ensures |s| == n
  {
    if n > 0 {
      CountTo(s - {n - 1}, n - 1);
    } else {
      assert s == {};
    }
  }

  lemma {:induction false} ChainLeast(n: nat)
    ensures Least(Chain(n), LastMarked(n, n))
  {
    hide BodyCount, BodyMany;
    var k := LastMarked(n, n);
    forall i | 0 <= i < n
      ensures ClosedAt(Chain(n), k, i)
    {
      LinkMany(n, k, i);
    }
    forall u: Known | u.For(Chain(n)) && SameNatives(Chain(n), k, u) && Closed(Chain(n), u)
      ensures Below(Chain(n), k, u)
    {
      forall i | 0 <= i < n
        ensures u.counts[i] >= 1 && u.mv[i]
      {
        ClosedFromEnd(n, u, i);
      }
    }
  }

  lemma {:induction false} ClosedFromEnd(n: nat, u: Known, i: nat)
    requires i < n && u.For(Chain(n)) && Closed(Chain(n), u)
    ensures u.counts[i] >= 1 && u.mv[i]
    decreases n - i
  {
    hide Callee;
    assert ClosedAt(Chain(n), u, i);
    var body := Link(n, i);
    assert Chain(n)[i].def.value == body;
    if i + 1 < n {
      ClosedFromEnd(n, u, i + 1);
      NextLink(n, i);
    }
    assert StmtMany(Chain(n), u, body[0]);
  }
}
