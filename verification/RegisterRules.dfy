/** Which register an allocation takes and what every operation changes, spelled out in the
    allocator's tables. */
module RegisterRules {
  import opened Frames
  import opened RegisterAllocator
  import opened Registers

  /** How gladly register `i` is taken: free, dead, not handed out lately, in use, pinned. */
  ghost function Rank(s: Regs, i: int): int
    requires s.Sized() && 1 <= i <= 13
  {
    if s.pinned[i] then 4
    else if !s.taken[i] then 0
    else if s.distance[i] == 0 then 1
    else if s.distance[i] > 0 && s.clock - s.serial[i] >= 2 then 2
    else 3
  }

  /** The phase that finds registers of each rank. */
  ghost function RankOf(p: Phase): int {
    match p
    case TakeFree => 0
    case TakeDead => 1
    case EvictFarthest => 2
    case EvictHighest => 3
  }

  /** Of two registers of one rank the lower one goes first, the one used farther away, or the
      higher one. */
  ghost predicate Before(s: Regs, i: int, j: int)
    requires s.Sized() && 1 <= i <= 13 && 1 <= j <= 13
  {
    Rank(s, i) < Rank(s, j) || (Rank(s, i) == Rank(s, j) &&
      match Rank(s, i)
      case 2 => s.distance[i] > s.distance[j] || (s.distance[i] == s.distance[j] && i <= j)
      case 3 => i >= j
      case _ => i <= j)
  }

  /** An allocation takes the first of the registers R1 to R13 in that order, unless it is pinned. */
  lemma {:induction false} PicksFirst(s: Regs, r: int)
    requires s.Sized()
    ensures (exists p :: Picks(s, r, p)) <==>
              1 <= r <= 13 && !s.pinned[r] && forall i :: 1 <= i <= 13 ==> Before(s, r, i)
    ensures forall p :: Picks(s, r, p) ==> Rank(s, r) == RankOf(p)
  {
    if 1 <= r <= 13 && !s.pinned[r] && forall i :: 1 <= i <= 13 ==> Before(s, r, i) {
      FirstIsPicked(s, r);
    }
    forall p | Picks(s, r, p)
      ensures Rank(s, r) == RankOf(p)
      ensures forall i :: 1 <= i <= 13 ==> Before(s, r, i)
    {
      PickedIsFirst(s, r, p);
    }
  }

  lemma {:induction false} FirstIsPicked(s: Regs, r: int)
    requires s.Sized() && 1 <= r <= 13 && !s.pinned[r] && forall i :: 1 <= i <= 13 ==> Before(s, r, i)
    ensures exists p :: Picks(s, r, p)
  {
    forall i | 1 <= i <= 13
      ensures s.Free(i) <==> Rank(s, i) == 0
      ensures s.Dead(i) <==> Rank(s, i) == 1
      ensures Rank(s, i) == 2 ==> s.Settled(i)
      ensures s.Settled(i) ==> Rank(s, i) == 2 || Rank(s, i) == 1
      ensures s.Movable(i) <==> 1 <= Rank(s, i) <= 3
      ensures Before(s, r, i)
    {}
    var p := match Rank(s, r) case 0 => TakeFree case 1 => TakeDead case 2 => EvictFarthest case _ => EvictHighest;
    assert Picks(s, r, p);
  }

  lemma {:induction false} PickedIsFirst(s: Regs, r: int, p: Phase)
    requires s.Sized() && Picks(s, r, p)
    ensures Rank(s, r) == RankOf(p)
    ensures forall i :: 1 <= i <= 13 ==> Before(s, r, i)
  {
    assert s.Settled(r) || p != EvictFarthest;
    assert !p.EvictHighest? || !s.Settled(r);
    assert p.TakeFree? || p.TakeDead? || !s.Dead(r);
    forall i | 1 <= i <= 13
      ensures Before(s, r, i)
    {
      assert s.Free(i) <==> Rank(s, i) == 0;
      assert s.Dead(i) <==> Rank(s, i) == 1;
      assert s.Movable(i) <==> 1 <= Rank(s, i) <= 3;
      assert Rank(s, i) == 2 ==> s.Settled(i);
    }
  }

  // ---------------------------------------------------------------------------
  // What is entered
  // ---------------------------------------------------------------------------

  /** No table entry differs but those of register `r`, and no pin does. */
  ghost predicate OnlyOf(s: Regs, t: Regs, r: int)
    requires s.Sized() && t.Sized()
  {
    && s.pinned == t.pinned
    && forall i :: 0 <= i <= 13 && i != r ==>
         s.taken[i] == t.taken[i] && s.distance[i] == t.distance[i] && s.spill[i] == t.spill[i] &&
         s.serial[i] == t.serial[i]
  }

  /** The register taken is in use. A free one counts as dead, a dead one as used next, an evicted
      one as used far away: it alone is saved, and its pending spill forgotten. */
  lemma {:induction false} TakenIs(s: Regs, base: int, r: int, p: Phase)
    requires s.Sized() && Picks(s, r, p)
    ensures var t, rank := Next(s, base, Allocated(r, p)), Rank(s, r);
            && OnlyOf(s, t, r) && t.clock == s.clock + 1 && t.serial[r] == s.clock + 1 && t.taken[r]
            && t.distance[r] == (if rank == 0 then 0 else if rank == 1 then 1 else 10000)
            && t.spill[r] == (if rank <= 1 then s.spill[r] else 0)
            && Moves(s, base, Allocated(r, p)) == if rank <= 1 then [] else [Save(r, base - r - 1)]
  {
    hide Picks;
    PicksFirst(s, r);
    InRange(s, r, p);
  }

  /** A spill saves the register in its word and frees it: the next allocation takes it when no
      lower register is free. A pinned one stays. */
  lemma {:induction false} SpilledIs(s: Regs, base: int, r: int)
    requires s.Sized() && 1 <= r <= 13
    ensures var t := Next(s, base, Spilled(r));
            && OnlyOf(s, t, r) && t.clock == s.clock && t.distance[r] == s.distance[r] && t.serial[r] == s.serial[r]
            && (s.pinned[r] ==> t == s && Moves(s, base, Spilled(r)) == [])
            && (!s.pinned[r] ==> Rank(t, r) == 0 && t.spill[r] == base - r - 1)
            && (!s.pinned[r] ==> Moves(s, base, Spilled(r)) == [Save(r, base - r - 1)])
            && (!s.pinned[r] && (forall i :: 1 <= i < r ==> Rank(s, i) > 0) ==> Picks(t, r, TakeFree))
  {
    var t := Next(s, base, Spilled(r));
    if !s.pinned[r] && forall i :: 1 <= i < r ==> Rank(s, i) > 0 {
      forall i | 1 <= i < r
        ensures !t.Free(i)
      {
        assert Rank(s, i) > 0;
      }
    }
  }

  /** A pending spill is reloaded, and not pending any more. */
  lemma {:induction false} EnsuredIs(s: Regs, base: int, r: int)
    requires s.Sized() && 0 <= r <= 13
    ensures var t := Next(s, base, Ensured(r));
            && OnlyOf(s, t, r) && t.clock == s.clock && t.distance[r] == s.distance[r] && t.serial[r] == s.serial[r]
            && t.spill[r] == 0 && t.taken[r] == (s.taken[r] || s.spill[r] != 0)
            && Moves(s, base, Ensured(r)) == if s.spill[r] == 0 then [] else [Load(r, base - r - 1)]
  {}

  /** A register that is released is free and dead, and has nothing to reload. */
  lemma {:induction false} ReleasedIs(s: Regs, base: int, r: int)
    requires s.Sized() && 0 <= r <= 13
    ensures var t := Next(s, base, Released(r));
            && OnlyOf(s, t, r) && t.clock == s.clock && t.serial[r] == s.serial[r]
            && !t.taken[r] && t.distance[r] == 0 && t.spill[r] == 0
            && Moves(s, base, Released(r)) == [] && Moves(t, base, Ensured(r)) == []
  {}

  /** In a frame with `n` locals the registers R0 to R13 are saved from word `n + 2` below the base
      on. */
  lemma {:induction false} SpillWords(n: nat, r: nat)
    ensures SpillSlot(SpillBase(n), r) == 0 - (n + 2 + r)
    ensures r < NUM_GPRS <==> r <= 13
  {}
}
