/** Which register an allocation takes, as a function of the allocator's state. */
module Registers {

  const NUM_GPRS := 14

  /** The allocator's tables; entry 0 belongs to R0, which is never handed out. `clock` counts
      the allocations made so far, `serial` holds its value at a register's last allocation. */
  datatype Regs = Regs(taken: seq<bool>, pinned: seq<bool>, distance: seq<int>, spill: seq<int>,
                       serial: seq<int>, clock: int)
  {
    predicate Sized() {
      |taken| == |pinned| == |distance| == |spill| == |serial| == NUM_GPRS
    }

    predicate Free(i: int)
      requires Sized() && 0 <= i < NUM_GPRS
    {
      !taken[i] && !pinned[i]
    }

    predicate Movable(i: int)
      requires Sized() && 0 <= i < NUM_GPRS
    {
      taken[i] && !pinned[i]
    }

    predicate Dead(i: int)
      requires Sized() && 0 <= i < NUM_GPRS
    {
      Movable(i) && distance[i] == 0
    }

    /** Not handed out by one of the last two allocations. */
    predicate Settled(i: int)
      requires Sized() && 0 <= i < NUM_GPRS
    {
      Movable(i) && clock - serial[i] >= 2 && distance[i] > -1
    }
  }

  /** The four ways a register is found, in the order in which they are tried. */
  datatype Phase = TakeFree | TakeDead | EvictFarthest | EvictHighest

  ghost predicate NoFree(s: Regs)
    requires s.Sized()
  {
    forall i :: 1 <= i < NUM_GPRS ==> !s.Free(i)
  }

  ghost predicate NoDead(s: Regs)
    requires s.Sized()
  {
    forall i :: 1 <= i < NUM_GPRS ==> !s.Dead(i)
  }

  ghost predicate NoneSettled(s: Regs)
    requires s.Sized()
  {
    forall i :: 1 <= i < NUM_GPRS ==> !s.Settled(i)
  }

  /** An allocation in state `s` takes register `r` in phase `p`. */
  ghost predicate Picks(s: Regs, r: int, p: Phase)
    requires s.Sized()
  {
    && 1 <= r < NUM_GPRS
    && match p
       case TakeFree => s.Free(r) && forall i :: 1 <= i < r ==> !s.Free(i)
       case TakeDead => NoFree(s) && s.Dead(r) && forall i :: 1 <= i < r ==> !s.Dead(i)
       case EvictFarthest =>
         && NoFree(s) && NoDead(s) && s.Settled(r)
         && forall i :: 1 <= i < NUM_GPRS && s.Settled(i) ==>
              s.distance[i] <= s.distance[r] && (s.distance[i] == s.distance[r] ==> r <= i)
       case EvictHighest =>
         && NoFree(s) && NoDead(s) && NoneSettled(s) && s.Movable(r)
         && forall i :: r < i < NUM_GPRS ==> !s.Movable(i)
  }

  ghost predicate AllPinned(s: Regs)
    requires s.Sized()
  {
    forall i :: 1 <= i < NUM_GPRS ==> s.pinned[i]
  }

  /** The tables after the allocation. An evicted register's pending spill is forgotten. */
  function Taken(s: Regs, r: int, p: Phase): (t: Regs)
    requires s.Sized() && 1 <= r < NUM_GPRS
    ensures t.Sized()
  {
    var distance := match p
      case TakeFree => 0
      case TakeDead => 1
      case _ => 10000;
    Regs(s.taken[r := true], s.pinned, s.distance[r := distance],
         if p.TakeFree? || p.TakeDead? then s.spill else s.spill[r := 0],
         s.serial[r := s.clock + 1], s.clock + 1)
  }

  // ---------------------------------------------------------------------------
  // What an allocation takes
  // ---------------------------------------------------------------------------

  /** At most one register is taken, never R0 and never a pinned one. */
  lemma {:induction false} PicksOne(s: Regs, r: int, p: Phase, q: int, o: Phase)
    requires s.Sized() && Picks(s, r, p) && Picks(s, q, o)
    ensures r == q && p == o && r != 0 && !s.pinned[r]
  {}

  /** There is one exactly when not every register is pinned. */
  lemma {:induction false} PicksUnlessAllPinned(s: Regs)
    requires s.Sized()
    ensures (exists r, p :: Picks(s, r, p)) <==> !AllPinned(s)
  {
    if !AllPinned(s) {
      var i :| 1 <= i < NUM_GPRS && !s.pinned[i];
      if !NoFree(s) {
        var f :| 1 <= f < NUM_GPRS && s.Free(f);
        var r := LeastFree(s, f);
      } else if !NoDead(s) {
        var d :| 1 <= d < NUM_GPRS && s.Dead(d);
        var r := LeastDead(s, d);
      } else if !NoneSettled(s) {
        var e :| 1 <= e < NUM_GPRS && s.Settled(e);
        var r := Farthest(s, NUM_GPRS);
        assert Picks(s, r, EvictFarthest);
      } else {
        assert !s.Free(i) && s.Movable(i);
        var r := Highest(s, i);
      }
    }
  }

  lemma {:induction false} LeastFree(s: Regs, f: int) returns (r: int)
    requires s.Sized() && 1 <= f < NUM_GPRS && s.Free(f)
    ensures Picks(s, r, TakeFree)
  {
    r := 1;
    while !s.Free(r)
      invariant 1 <= r <= f && forall i :: 1 <= i < r ==> !s.Free(i)
      decreases f - r
    {
      r := r + 1;
    }
  }

  lemma {:induction false} LeastDead(s: Regs, d: int) returns (r: int)
    requires s.Sized() && 1 <= d < NUM_GPRS && s.Dead(d) && NoFree(s)
    ensures Picks(s, r, TakeDead)
  {
    r := 1;
    while !s.Dead(r)
      invariant 1 <= r <= d && forall i :: 1 <= i < r ==> !s.Dead(i)
      decreases d - r
    {
      r := r + 1;
    }
  }

  /** The first of the settled registers below `n` with the largest distance; -1 for none. */
  lemma {:induction false} Farthest(s: Regs, n: int) returns (r: int)
    requires s.Sized() && 1 <= n <= NUM_GPRS
    ensures r == -1 ==> forall i :: 1 <= i < n ==> !s.Settled(i)
    ensures r != -1 ==> 1 <= r < n && s.Settled(r) && forall i :: 1 <= i < n && s.Settled(i) ==>
              s.distance[i] <= s.distance[r] && (s.distance[i] == s.distance[r] ==> r <= i)
  {
    r := -1;
    for k := 1 to n
      invariant r == -1 ==> forall i :: 1 <= i < k ==> !s.Settled(i)
      invariant r != -1 ==> 1 <= r < k && s.Settled(r) && forall i :: 1 <= i < k && s.Settled(i) ==>
                  s.distance[i] <= s.distance[r] && (s.distance[i] == s.distance[r] ==> r <= i)
    {
      if s.Settled(k) && (r == -1 || s.distance[k] > s.distance[r]) {
        r := k;
      }
    }
  }

  lemma {:induction false} Highest(s: Regs, m: int) returns (r: int)
    requires s.Sized() && 1 <= m < NUM_GPRS && s.Movable(m) && NoFree(s) && NoDead(s) && NoneSettled(s)
    ensures Picks(s, r, EvictHighest)
  {
    r := NUM_GPRS - 1;
    while !s.Movable(r)
      invariant m <= r < NUM_GPRS && forall i :: r < i < NUM_GPRS ==> !s.Movable(i)
      decreases r
    {
      r := r - 1;
    }
  }

  // ---------------------------------------------------------------------------
  // Two allocations in a row
  // ---------------------------------------------------------------------------

  /** No register but `r` is free or dead. */
  ghost predicate OthersInUse(s: Regs, r: int)
    requires s.Sized()
  {
    forall i :: 1 <= i < NUM_GPRS && i != r ==> !s.Free(i) && !s.Dead(i)
  }

  /** No register but `r` will be settled after one more allocation. */
  ghost predicate OthersUnsettled(s: Regs, r: int)
    requires s.Sized()
  {
    forall i :: 1 <= i < NUM_GPRS && i != r && s.Movable(i) ==> s.clock + 1 - s.serial[i] < 2 || s.distance[i] <= -1
  }

  /** The next allocation takes register `r` again. A free register counts as dead once it is
      taken: it goes again when no other is free and no lower one is dead. A register found in a
      later phase goes again when no other is dead or settled and none above it can be moved. */
  ghost predicate GoesAgain(s: Regs, r: int, p: Phase)
    requires s.Sized() && 1 <= r < NUM_GPRS
  {
    if p.TakeFree? then
      && (forall i :: 1 <= i < NUM_GPRS && i != r ==> !s.Free(i))
      && (forall i :: 1 <= i < r ==> !s.Dead(i))
    else
      OthersInUse(s, r) && OthersUnsettled(s, r) && forall i :: r < i < NUM_GPRS ==> !s.Movable(i)
  }

  /** Whatever the first allocation takes, the second takes the same register exactly then. */
  lemma {:induction false} TakenAgain(s: Regs, r: int, p: Phase)
    requires s.Sized() && Picks(s, r, p)
    ensures (exists q :: Picks(Taken(s, r, p), r, q)) <==> GoesAgain(s, r, p)
  {
    var t := Taken(s, r, p);
    forall i | 1 <= i < NUM_GPRS && i != r
      ensures t.Free(i) == s.Free(i) && t.Dead(i) == s.Dead(i) && t.Movable(i) == s.Movable(i)
      ensures t.Settled(i) == (s.Movable(i) && s.clock + 1 - s.serial[i] >= 2 && s.distance[i] > -1)
    {}
    assert t.Movable(r) && !t.Settled(r) && t.Dead(r) == p.TakeFree?;
    if p.TakeFree? {
      if GoesAgain(s, r, p) {
        assert Picks(t, r, TakeDead);
      }
    } else {
      assert !s.Free(r);
      forall q | Picks(t, r, q)
        ensures GoesAgain(s, r, p)
      {
        NotAgain(s, r, p, q);
      }
      if GoesAgain(s, r, p) {
        assert Picks(t, r, EvictHighest);
      }
    }
  }

  lemma {:induction false} NotAgain(s: Regs, r: int, p: Phase, q: Phase)
    requires s.Sized() && Picks(s, r, p) && !p.TakeFree? && Picks(Taken(s, r, p), r, q)
    ensures GoesAgain(s, r, p)
  {
    var t := Taken(s, r, p);
    assert q.EvictHighest?;
    forall i | 1 <= i < NUM_GPRS && i != r
      ensures !s.Free(i) && !s.Dead(i)
      ensures s.Movable(i) ==> s.clock + 1 - s.serial[i] < 2 || s.distance[i] <= -1
      ensures r < i ==> !s.Movable(i)
    {
      assert !t.Free(i) && !t.Dead(i) && !t.Settled(i) && (r < i ==> !t.Movable(i));
    }
  }

  function Pinned(s: Regs, r: int): (t: Regs)
    requires s.Sized() && 0 <= r < NUM_GPRS
    ensures t.Sized()
  {
    s.(pinned := s.pinned[r := true])
  }

  /** The tables of a new allocator. */
  function Initial(): (s: Regs)
    ensures s.Sized()
  {
    Regs(seq(NUM_GPRS, i => i == 0), seq(NUM_GPRS, i => false), seq(NUM_GPRS, i => 0),
         seq(NUM_GPRS, i => 0), seq(NUM_GPRS, i => 0), 0)
  }

  /** The tables of an allocator that has pinned registers 1 to `n`. */
  function PinnedTo(n: nat): (s: Regs)
    requires n < NUM_GPRS
    ensures s.Sized()
  {
    if n == 0 then Initial() else Pinned(Taken(PinnedTo(n - 1), n, TakeFree), n)
  }

  /** The allocations of `PinnedTo` take these registers. */
  lemma {:induction false} PinsInOrder(n: nat)
    requires n < NUM_GPRS
    ensures var s := PinnedTo(n);
            && (forall i :: 0 <= i < NUM_GPRS ==> s.taken[i] == (i <= n) && s.pinned[i] == (1 <= i <= n))
            && (n + 1 < NUM_GPRS ==> Picks(s, n + 1, TakeFree))
  {
    if n > 0 {
      PinsInOrder(n - 1);
    }
  }

  /** It does happen: with all registers but the last pinned, three allocations in a row take the
      last one, each in another phase. */
  lemma {:induction false} LastTakenThrice()
    ensures var s := PinnedTo(NUM_GPRS - 2);
            var t := Taken(s, NUM_GPRS - 1, TakeFree);
            && Picks(s, NUM_GPRS - 1, TakeFree)
            && Picks(t, NUM_GPRS - 1, TakeDead)
            && Picks(Taken(t, NUM_GPRS - 1, TakeDead), NUM_GPRS - 1, EvictHighest)
  {
    hide PinnedTo;
    PinsInOrder(NUM_GPRS - 2);
  }
}
