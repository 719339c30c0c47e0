/** The register allocator: its tables, the moves it emits, and who holds which pin. */
module RegisterAllocator {
  import opened Registers
  import Frames

  /** Moves between a register and a word of the frame. */
  datatype Move = Save(reg: int, slot: int) | Load(reg: int, slot: int)

  class Allocator {
    const taken: array<bool>
    const pinned: array<bool>
    const distance: array<int>
    const spill: array<int>
    const serial: array<int>
    var clock: int
    var spillBase: int
    var emitted: seq<Move>
    /** The registers whose pin has not been released, in the order of pinning. */
    ghost var held: seq<int>

    ghost function Repr(): set<object> {
      {this, taken, pinned, distance, spill, serial}
    }

    ghost predicate Tables() {
      && taken.Length == pinned.Length == distance.Length == spill.Length == serial.Length == NUM_GPRS
      && taken != pinned && distance != spill && distance != serial && spill != serial
    }

    ghost function State(): (s: Regs)
      requires Tables()
      reads Repr()
      ensures s.Sized()
    {
      Regs(taken[..], pinned[..], distance[..], spill[..], serial[..], clock)
    }

    /** Pins are held once each, and a register is pinned while its pin is held. */
    ghost predicate Pins()
      requires Tables()
      reads Repr()
    {
      HeldFits(held, pinned[..])
    }

    ghost predicate Valid()
      reads Repr()
    {
      Tables() && Pins() && spillBase <= -1 && SpillsFit(spill[..], spillBase)
    }

    constructor ()
      ensures Valid() && held == [] && emitted == [] && fresh(Repr())
      ensures State() == Initial()
    {
      taken := new bool[NUM_GPRS](i => i == 0);
      pinned := new bool[NUM_GPRS](i => false);
      distance := new int[NUM_GPRS](i => 0);
      spill := new int[NUM_GPRS](i => 0);
      serial := new int[NUM_GPRS](i => 0);
      clock, spillBase, emitted, held := 0, -1, [], [];
      new;
      assert taken[..] == seq(NUM_GPRS, i => i == 0);
      assert pinned[..] == seq(NUM_GPRS, i => false);
      assert distance[..] == spill[..] == serial[..] == seq(NUM_GPRS, i => 0);
    }

    // ---------------------------------------------------------------------------
    // Finding a register
    // ---------------------------------------------------------------------------

    method FindFree() returns (r: int)
      requires Tables()
      ensures if r == -1 then NoFree(State()) else Picks(State(), r, TakeFree)
    {
      for i := 1 to NUM_GPRS
        invariant forall k :: 1 <= k < i ==> !State().Free(k)
      {
        if !taken[i] && !pinned[i] {
          return i;
        }
      }
      return -1;
    }

    method FindDead() returns (r: int)
      requires Tables() && NoFree(State())
      ensures if r == -1 then NoDead(State()) else Picks(State(), r, TakeDead)
    {
      for i := 1 to NUM_GPRS
        invariant forall k :: 1 <= k < i ==> !State().Dead(k)
      {
        if taken[i] && !pinned[i] && distance[i] == 0 {
          return i;
        }
      }
      return -1;
    }

    method FindFarthest() returns (r: int)
      requires Tables() && NoFree(State()) && NoDead(State())
      ensures if r == -1 then NoneSettled(State()) else Picks(State(), r, EvictFarthest)
    {
      r := -1;
      var max := -1;
      for i := 1 to NUM_GPRS
        invariant if r == -1 then max == -1 && forall k :: 1 <= k < i ==> !State().Settled(k)
                  else 1 <= r < i && State().Settled(r) && max == distance[r]
        invariant r != -1 ==> forall k :: 1 <= k < i && State().Settled(k) ==>
                    State().distance[k] <= max && (State().distance[k] == max ==> r <= k)
      {
        if taken[i] && !pinned[i] && clock - serial[i] >= 2 {
          if distance[i] > max {
            max := distance[i];
            r := i;
          }
        }
      }
    }

    method FindHighest() returns (r: int)
      requires Tables() && NoFree(State()) && NoDead(State()) && NoneSettled(State())
      ensures if r == -1 then AllPinned(State()) else Picks(State(), r, EvictHighest)
    {
      for i := NUM_GPRS downto 1
        invariant forall k :: i <= k < NUM_GPRS ==> !State().Movable(k)
      {
        if taken[i] && !pinned[i] {
          return i;
        }
      }
      NonePinnedLeft(State());
      return -1;
    }

    // ---------------------------------------------------------------------------
    // Operations
    // ---------------------------------------------------------------------------

    /** Takes a register; -1 when all are pinned. */
    method Allocate() returns (r: int, ghost p: Phase)
      requires Valid()
      modifies this`clock, this`emitted, taken, distance, spill, serial
      ensures Valid() && (r == -1 <==> AllPinned(old(State())))
      ensures r == -1 ==> State() == old(State()) && emitted == old(emitted)
      ensures r != -1 ==> Picks(old(State()), r, p) && State() == Taken(old(State()), r, p) && r !in held
      ensures r != -1 ==> emitted == old(emitted) + Moves(old(State()), spillBase, Allocated(r, p))
    {
      ghost var s := State();
      hide Picks, NoFree, NoDead, NoneSettled, AllPinned, HeldFits, SpillsFit, Frames.SpillSlot;
      r := FindFree();
      p := TakeFree;
      var d := 0;
      if r == -1 {
        r := FindDead();
        p, d := TakeDead, 1;
        if r == -1 {
          r := FindFarthest();
          p, d := EvictFarthest, 10000;
          if r == -1 {
            r := FindHighest();
            p := EvictHighest;
            if r == -1 {
              return;
            }
          }
        }
      }
      PickedUnpinned(s, r, p, held);
      if d == 10000 {
        Spill(r);
        spill[r] := 0;
        ForgottenFits(s.spill, spillBase, r);
      }
      HandOut(r, d, s, p);
    }

    /** The chosen register is entered in the tables. */
    method HandOut(r: int, d: int, ghost s: Regs, ghost p: Phase)
      requires Valid() && 1 <= r < NUM_GPRS && s.Sized()
      requires d == match p { case TakeFree => 0 case TakeDead => 1 case _ => 10000 }
      requires State().(taken := s.taken, spill := s.spill) == s && State().taken[r := true] == s.taken[r := true]
      requires spill[..] == if d == 10000 then s.spill[r := 0] else s.spill
      modifies this`clock, taken, distance, serial
      ensures Valid() && State() == Taken(s, r, p)
    {
      hide HeldFits, SpillsFit;
      taken[r] := true;
      distance[r] := d;
      clock := clock + 1;
      serial[r] := clock;
      assert taken[..] == s.taken[r := true];
    }

    /** Saves a register in its slot, unless it is pinned. */
    method Spill(r: int)
      requires Valid()
      modifies this`emitted, taken, spill
      ensures Valid()
      ensures State() == Next(old(State()), spillBase, Spilled(r))
      ensures emitted == old(emitted) + Moves(old(State()), spillBase, Spilled(r))
    {
      if 0 <= r < NUM_GPRS && !pinned[r] {
        ForceSpill(r);
      }
    }

    method ForceSpill(r: int)
      requires Valid()
      modifies this`emitted, taken, spill
      ensures Valid()
      ensures var s := old(State());
              if 0 <= r < NUM_GPRS then
                && State() == s.(taken := s.taken[r := false], spill := s.spill[r := Frames.SpillSlot(spillBase, r)])
                && emitted == old(emitted) + [Save(r, Frames.SpillSlot(spillBase, r))]
              else State() == s && emitted == old(emitted)
    {
      hide HeldFits;
      if r < 0 || r >= NUM_GPRS {
        return;
      }
      var slot := Frames.SpillSlot(spillBase, r);
      spill[r] := slot;
      emitted := emitted + [Save(r, slot)];
      taken[r] := false;
    }

    /** Reloads a register that has a pending spill. */
    method EnsureInRegister(r: int)
      requires Valid()
      modifies this`emitted, taken, spill
      ensures Valid()
      ensures State() == Next(old(State()), spillBase, Ensured(r))
      ensures emitted == old(emitted) + Moves(old(State()), spillBase, Ensured(r))
    {
      hide HeldFits;
      if 0 <= r < NUM_GPRS && spill[r] != 0 {
        emitted := emitted + [Load(r, spill[r])];
        spill[r] := 0;
        taken[r] := true;
      }
    }

    method Lock(r: int)
      requires Valid()
      modifies taken, distance
      ensures Valid()
      ensures var s := old(State());
              State() == if 0 <= r < NUM_GPRS then s.(taken := s.taken[r := true], distance := s.distance[r := 10000])
                else s
    {
      hide HeldFits, SpillsFit;
      if 0 <= r < NUM_GPRS {
        taken[r] := true;
        distance[r] := 10000;
      }
    }

    /** Frees a register and forgets its pending spill. */
    method Unlock(r: int)
      requires Valid()
      modifies taken, distance, spill
      ensures Valid()
      ensures State() == Unlocked(old(State()), r)
    {
      hide HeldFits;
      if 0 <= r < NUM_GPRS {
        taken[r] := false;
        distance[r] := 0;
        spill[r] := 0;
      }
    }

    /** Takes a register and pins it. */
    method AllocatePinned() returns (r: int, ghost p: Phase)
      requires Valid()
      modifies this`clock, this`emitted, this`held, taken, pinned, distance, spill, serial
      ensures Valid() && (r == -1 <==> AllPinned(old(State())))
      ensures r == -1 ==> State() == old(State()) && held == old(held)
      ensures r != -1 ==> Picks(old(State()), r, p) && r !in old(held) && held == old(held) + [r]
      ensures r != -1 ==> State() == Pinned(Taken(old(State()), r, p), r)
    {
      hide Picks, AllPinned, SpillsFit;
      r, p := Allocate();
      if r != -1 {
        InRange(old(State()), r, p);
        PinOne(held, pinned[..], r);
        pinned[r] := true;
        held := held + [r];
      }
    }

    /** Releases a pin and frees the register. */
    method UnlockPinned(r: int)
      requires Valid() && r in held
      modifies this`held, taken, pinned, distance, spill
      ensures Valid()
      ensures State() == Unlocked(Unpinned(old(State()), r), r)
      ensures multiset(held) == multiset(old(held)) - multiset{r} && r !in held
    {
      hide SpillsFit;
      ghost var k :| 0 <= k < |held| && held[k] == r;
      UnpinOne(held, pinned[..], k);
      pinned[r] := false;
      held := held[..k] + held[k + 1..];
      Unlock(r);
    }

    /** Allocates while the two registers of return values are kept out. */
    method AllocateNotR2R3() returns (r: int)
      requires Valid()
      modifies this`clock, this`emitted, this`held, taken, pinned, distance, spill, serial
      ensures Valid() && held == old(held) && pinned[..] == old(pinned[..])
      ensures r == -1 <==> forall i :: 1 <= i < NUM_GPRS && i != 2 && i != 3 ==> old(pinned[i])
      ensures r != -1 ==> 1 <= r < NUM_GPRS && r != 2 && r != 3 && !old(pinned[r])
    {
      hide SpillsFit, HeldFits, Picks;
      ghost var heldBefore, pins := held, pinned[..];
      var p2, p3 := pinned[2], pinned[3];
      PinKept(held, pins, 2);
      pinned[2] := true;
      held := if p2 then held else held + [2];
      PinKept(held, pinned[..], 3);
      pinned[3] := true;
      held := if p3 then held else held + [3];
      ghost var s, p := State(), TakeFree;
      r, p := Allocate();
      if r != -1 {
        InRange(s, r, p);
      }
      pinned[2] := p2;
      pinned[3] := p3;
      held := heldBefore;
      assert pinned[..] == pins;
    }

    method MarkLive(r: int, instructions: int)
      requires Valid()
      modifies distance
      ensures Valid()
      ensures var s := old(State());
              State() == if 0 <= r < NUM_GPRS then s.(distance := s.distance[r := instructions]) else s
    {
      hide HeldFits, SpillsFit;
      if 0 <= r < NUM_GPRS {
        distance[r] := instructions;
      }
    }

    method UpdateLive(r: int)
      requires Valid()
      modifies distance
      ensures Valid()
      ensures var s := old(State());
              State() == if 0 <= r < NUM_GPRS && s.distance[r] > 0 then
                           s.(distance := s.distance[r := s.distance[r] - 1])
                         else s
    {
      hide HeldFits, SpillsFit;
      if 0 <= r < NUM_GPRS && distance[r] > 0 {
        distance[r] := distance[r] - 1;
      }
    }

    /** A new frame: no spill is pending. */
    method ResetSpillSlots(base: int)
      requires Valid() && base <= -1
      modifies this`spillBase, spill, distance
      ensures Valid() && spillBase == base
      ensures var s := old(State());
              State() == s.(spill := seq(NUM_GPRS, i => 0), distance := seq(NUM_GPRS, i => 0))
    {
      hide HeldFits;
      ghost var s := State();
      spillBase := base;
      forall i | 0 <= i < NUM_GPRS {
        spill[i] := 0;
      }
      forall i | 0 <= i < NUM_GPRS {
        distance[i] := 0;
      }
      ghost var zeros: seq<int> := seq(NUM_GPRS, i => 0);
      assert spill[..] == zeros && distance[..] == zeros;
      assert State() == s.(spill := zeros, distance := zeros);
    }
  }

  // ---------------------------------------------------------------------------
  // What the operations do to the tables and emit
  // ---------------------------------------------------------------------------

  /** Allocator operations on one register, and code that computes a value in a register. */
  datatype Event =
    | Spilled(r: int)
    | Ensured(r: int)
    | Allocated(r: int, p: Phase)
    | Released(r: int)
    | Computed(r: int, value: int)

  function Next(s: Regs, base: int, e: Event): (t: Regs)
    requires s.Sized() && (e.Allocated? ==> 1 <= e.r < NUM_GPRS)
    ensures t.Sized()
  {
    match e
    case Spilled(r) =>
      if 0 <= r < NUM_GPRS && !s.pinned[r] then
        s.(taken := s.taken[r := false], spill := s.spill[r := Frames.SpillSlot(base, r)])
      else s
    case Ensured(r) =>
      if 0 <= r < NUM_GPRS && s.spill[r] != 0 then s.(taken := s.taken[r := true], spill := s.spill[r := 0]) else s
    case Allocated(r, p) => Taken(s, r, p)
    case Released(r) => Unlocked(s, r)
    case Computed(_, _) => s
  }

  function Moves(s: Regs, base: int, e: Event): seq<Move>
    requires s.Sized()
  {
    match e
    case Spilled(r) => if 0 <= r < NUM_GPRS && !s.pinned[r] then [Save(r, Frames.SpillSlot(base, r))] else []
    case Ensured(r) => if 0 <= r < NUM_GPRS && s.spill[r] != 0 then [Load(r, Frames.SpillSlot(base, r))] else []
    case Allocated(r, p) => if p.TakeFree? || p.TakeDead? then [] else [Save(r, Frames.SpillSlot(base, r))]
    case _ => []
  }

  function Unlocked(s: Regs, r: int): (t: Regs)
    requires s.Sized()
    ensures t.Sized()
  {
    if 0 <= r < NUM_GPRS then
      s.(taken := s.taken[r := false], distance := s.distance[r := 0], spill := s.spill[r := 0])
    else s
  }

  function Unpinned(s: Regs, r: int): (t: Regs)
    requires s.Sized() && 0 <= r < NUM_GPRS
    ensures t.Sized()
  {
    s.(pinned := s.pinned[r := false])
  }

  lemma {:induction false} ForgottenFits(spill: seq<int>, base: int, r: int)
    requires SpillsFit(spill, base) && 0 <= r < |spill|
    ensures SpillsFit(spill[r := 0], base)
  {}

  lemma {:induction false} InRange(s: Regs, r: int, p: Phase)
    requires s.Sized() && Picks(s, r, p)
    ensures 1 <= r < NUM_GPRS && !s.pinned[r]
  {}

  lemma {:induction false} PickedUnpinned(s: Regs, r: int, p: Phase, held: seq<int>)
    requires s.Sized() && Picks(s, r, p) && HeldFits(held, s.pinned)
    ensures 1 <= r < NUM_GPRS && !s.pinned[r] && r !in held && !AllPinned(s)
  {}

  /** A pin is added. */
  lemma {:induction false} PinOne(held: seq<int>, pinned: seq<bool>, r: int)
    requires HeldFits(held, pinned) && 1 <= r < NUM_GPRS && r !in held
    ensures HeldFits(held + [r], pinned[r := true])
  {}

  lemma {:induction false} PinKept(held: seq<int>, pinned: seq<bool>, r: int)
    requires HeldFits(held, pinned) && 1 <= r < NUM_GPRS
    ensures HeldFits(if pinned[r] then held else held + [r], pinned[r := true])
  {
    if pinned[r] {
      assert pinned[r := true] == pinned;
    }
  }

  /** A pin is released: no other pin was on that register. */
  lemma {:induction false} UnpinOne(held: seq<int>, pinned: seq<bool>, k: nat)
    requires HeldFits(held, pinned) && k < |held|
    ensures var rest := held[..k] + held[k + 1..];
            HeldFits(rest, pinned[held[k] := false]) && held[k] !in rest &&
            multiset(rest) == multiset(held) - multiset{held[k]}
  {
    WithoutOne(held, k);
    OthersHeld(held, k);
    OthersDistinct(held, k);
    UnpinRest(held, held[..k] + held[k + 1..], pinned, held[k]);
  }

  lemma {:induction false} UnpinRest(held: seq<int>, rest: seq<int>, pinned: seq<bool>, r: int)
    requires HeldFits(held, pinned) && r in held
    requires forall x :: x in rest <==> x in held && x != r
    requires forall i, j :: 0 <= i < j < |rest| ==> rest[i] != rest[j]
    ensures HeldFits(rest, pinned[r := false])
  {
    forall i | 0 <= i < |rest|
      ensures 1 <= rest[i] < NUM_GPRS && pinned[rest[i]] && rest[i] != r
    {
      assert rest[i] in rest;
    }
  }

  lemma {:induction false} OthersDistinct(held: seq<int>, k: nat)
    requires k < |held| && forall i, j :: 0 <= i < j < |held| ==> held[i] != held[j]
    ensures var rest := held[..k] + held[k + 1..]; forall i, j :: 0 <= i < j < |rest| ==> rest[i] != rest[j]
  {
    var rest := held[..k] + held[k + 1..];
    forall i, j | 0 <= i < j < |rest|
      ensures rest[i] != rest[j]
    {
      assert rest[i] == held[if i < k then i else i + 1] && rest[j] == held[if j < k then j else j + 1];
    }
  }

  lemma {:induction false} WithoutOne(held: seq<int>, k: nat)
    requires k < |held|
    ensures multiset(held[..k] + held[k + 1..]) == multiset(held) - multiset{held[k]}
  {
    assert held == held[..k] + [held[k]] + held[k + 1..];
  }

  lemma {:induction false} OthersHeld(held: seq<int>, k: nat)
    requires k < |held| && forall i, j :: 0 <= i < j < |held| ==> held[i] != held[j]
    ensures forall x :: x in held[..k] + held[k + 1..] <==> x in held && x != held[k]
  {
    var rest := held[..k] + held[k + 1..];
    forall x | x in held && x != held[k]
      ensures x in rest
    {
      var i :| 0 <= i < |held| && held[i] == x;
      assert rest[if i < k then i else i - 1] == x;
    }
    forall i | 0 <= i < |rest|
      ensures rest[i] in held && rest[i] != held[k]
    {
      assert rest[i] == held[if i < k then i else i + 1];
    }
  }

  lemma {:induction false} NonePinnedLeft(s: Regs)
    requires s.Sized() && NoFree(s) && forall k :: 1 <= k < NUM_GPRS ==> !s.Movable(k)
    ensures AllPinned(s)
  {
    forall i | 1 <= i < NUM_GPRS
      ensures s.pinned[i]
    {
      assert !s.Free(i) && !s.Movable(i);
    }
  }

  ghost predicate HeldFits(held: seq<int>, pinned: seq<bool>) {
    && |pinned| == NUM_GPRS && !pinned[0]
    && (forall i :: 0 <= i < |held| ==> 1 <= held[i] < NUM_GPRS && pinned[held[i]])
    && (forall r :: 1 <= r < NUM_GPRS && pinned[r] ==> r in held)
    && (forall i, j :: 0 <= i < j < |held| ==> held[i] != held[j])
  }

  /** A pending spill is in the register's own slot. */
  ghost predicate SpillsFit(spill: seq<int>, base: int) {
    forall r :: 0 <= r < |spill| ==> spill[r] == 0 || spill[r] == Frames.SpillSlot(base, r)
  }

  // ---------------------------------------------------------------------------
  // What the emitted moves do
  // ---------------------------------------------------------------------------

  /** The registers and the words of the frame. */
  datatype Machine = Machine(file: map<int, int>, words: map<int, int>)

  /** Generated code: the allocator's moves, and anything that puts a value in a register. */
  datatype Step = Do(move: Move) | Compute(reg: int, value: int)

  function Execute(m: Machine, s: Step): Machine {
    match s
    case Compute(r, v) => m.(file := m.file[r := v])
    case Do(Save(r, slot)) => if r in m.file then m.(words := m.words[slot := m.file[r]]) else m
    case Do(Load(r, slot)) => if slot in m.words then m.(file := m.file[r := m.words[slot]]) else m
  }

  function Run(m: Machine, steps: seq<Step>): Machine
    decreases |steps|
  {
    if |steps| == 0 then m else Run(Execute(m, steps[0]), steps[1..])
  }

  /** The steps between may use every register; they save only others, each in its own slot. */
  ghost predicate SavesOthers(steps: seq<Step>, base: int, r: int) {
    forall i :: 0 <= i < |steps| && steps[i].Do? && steps[i].move.Save? ==>
      steps[i].move.reg != r && steps[i].move.slot == Frames.SpillSlot(base, steps[i].move.reg)
  }

  lemma {:induction false} WordKept(m: Machine, steps: seq<Step>, base: int, r: int, v: int)
    requires SavesOthers(steps, base, r) && Frames.SpillSlot(base, r) in m.words &&
             m.words[Frames.SpillSlot(base, r)] == v
    ensures var n := Run(m, steps); Frames.SpillSlot(base, r) in n.words && n.words[Frames.SpillSlot(base, r)] == v
    decreases |steps|
  {
    if |steps| > 0 {
      WordKept(Execute(m, steps[0]), steps[1..], base, r, v);
    }
  }

  lemma {:induction false} RunTwo(m: Machine, a: seq<Step>, b: seq<Step>)
    ensures Run(m, a + b) == Run(Run(m, a), b)
    decreases |a|
  {
    if |a| == 0 {
      assert a + b == b;
    } else {
      assert (a + b)[1..] == a[1..] + b;
      RunTwo(Execute(m, a[0]), a[1..], b);
    }
  }

  /** A register that is saved and reloaded has its value back, whatever happened between. */
  lemma {:induction false} SaveRestores(m: Machine, steps: seq<Step>, base: int, r: int)
    requires SavesOthers(steps, base, r) && r in m.file
    ensures var slot := Frames.SpillSlot(base, r);
            var n := Run(m, [Do(Save(r, slot))] + steps + [Do(Load(r, slot))]);
            r in n.file && n.file[r] == m.file[r]
  {
    hide SavesOthers, Frames.SpillSlot;
    var slot := Frames.SpillSlot(base, r);
    var first, last := [Do(Save(r, slot))], [Do(Load(r, slot))];
    var saved := Execute(m, first[0]);
    RunOne(m, first[0]);
    WordKept(saved, steps, base, r, m.file[r]);
    RunTwo(m, first, steps);
    RunTwo(m, first + steps, last);
    RunOne(Run(saved, steps), last[0]);
  }

  lemma {:induction false} RunOne(m: Machine, s: Step)
    ensures Run(m, [s]) == Execute(m, s)
  {
    assert [s][1..] == [];
  }

  // ---------------------------------------------------------------------------
  // What the allocator's operations do to values
  // ---------------------------------------------------------------------------

  /** The operations are on registers they can be on, and none of the allocator's is on `r`. */
  ghost predicate LeavesAlone(es: seq<Event>, r: int) {
    forall i :: 0 <= i < |es| ==>
      (es[i].Allocated? ==> 1 <= es[i].r < NUM_GPRS) && (es[i].Computed? || es[i].r != r)
  }

  /** The generated code of one operation. */
  function StepsOf(s: Regs, base: int, e: Event): seq<Step>
    requires s.Sized()
  {
    if e.Computed? then [Compute(e.r, e.value)]
    else
      var ms := Moves(s, base, e);
      seq(|ms|, i requires 0 <= i < |ms| => Do(ms[i]))
  }

  ghost predicate InRangeAll(es: seq<Event>) {
    forall i :: 0 <= i < |es| && es[i].Allocated? ==> 1 <= es[i].r < NUM_GPRS
  }

  /** The generated code of a sequence of operations. */
  function Generated(s: Regs, base: int, es: seq<Event>): seq<Step>
    requires s.Sized() && InRangeAll(es)
    decreases |es|
  {
    if |es| == 0 then [] else StepsOf(s, base, es[0]) + Generated(Next(s, base, es[0]), base, es[1..])
  }

  function Finally(s: Regs, base: int, es: seq<Event>): (t: Regs)
    requires s.Sized() && InRangeAll(es)
    ensures t.Sized()
    decreases |es|
  {
    if |es| == 0 then s else Finally(Next(s, base, es[0]), base, es[1..])
  }

  /** A pending spill stays pending, and its word is not written. */
  lemma {:induction false} StaysPending(s: Regs, base: int, es: seq<Event>, r: int)
    requires s.Sized() && 0 <= r < NUM_GPRS && LeavesAlone(es, r)
    ensures InRangeAll(es) && Finally(s, base, es).spill[r] == s.spill[r]
    ensures SavesOthers(Generated(s, base, es), base, r)
    decreases |es|
  {
    if |es| > 0 {
      OneAlone(s, base, es[0], r);
      StaysPending(Next(s, base, es[0]), base, es[1..], r);
      BothSaveOthers(StepsOf(s, base, es[0]), Generated(Next(s, base, es[0]), base, es[1..]), base, r);
    }
  }

  lemma {:induction false} OneAlone(s: Regs, base: int, e: Event, r: int)
    requires s.Sized() && 0 <= r < NUM_GPRS && LeavesAlone([e], r)
    ensures e.Allocated? ==> 1 <= e.r < NUM_GPRS
    ensures Next(s, base, e).spill[r] == s.spill[r] && SavesOthers(StepsOf(s, base, e), base, r)
  {
    assert [e][0] == e;
  }

  lemma {:induction false} BothSaveOthers(a: seq<Step>, b: seq<Step>, base: int, r: int)
    requires SavesOthers(a, base, r) && SavesOthers(b, base, r)
    ensures SavesOthers(a + b, base, r)
  {}

  /** A register that is spilled and later ensured has its value back, whatever the allocator
      did to other registers and the code computed in any register in between. */
  lemma {:induction false} SpillRestores(m: Machine, s: Regs, base: int, es: seq<Event>, r: int)
    requires s.Sized() && base <= -1 && 0 <= r < NUM_GPRS && !s.pinned[r] && r in m.file && LeavesAlone(es, r)
    ensures InRangeAll([Spilled(r)] + es + [Ensured(r)])
    ensures var n := Run(m, Generated(s, base, [Spilled(r)] + es + [Ensured(r)]));
            r in n.file && n.file[r] == m.file[r]
  {
    hide Execute, Run, Generated, StepsOf, Next, Finally, SavesOthers, Frames.SpillSlot;
    var saved := SpillGenerates(s, base, es, r);
    SaveRestores(m, Generated(saved, base, es), base, r);
  }

  /** The code generated: the register is saved, others may be, and it is loaded. */
  lemma {:induction false} SpillGenerates(s: Regs, base: int, es: seq<Event>, r: int) returns (saved: Regs)
    requires s.Sized() && base <= -1 && 0 <= r < NUM_GPRS && !s.pinned[r] && LeavesAlone(es, r)
    ensures InRangeAll([Spilled(r)] + es + [Ensured(r)]) && InRangeAll(es)
    ensures saved.Sized() && SavesOthers(Generated(saved, base, es), base, r)
    ensures var slot := Frames.SpillSlot(base, r);
            Generated(s, base, [Spilled(r)] + es + [Ensured(r)])
            == [Do(Save(r, slot))] + Generated(saved, base, es) + [Do(Load(r, slot))]
  {
    hide Generated, StepsOf, Finally, SavesOthers;
    saved := Next(s, base, Spilled(r));
    StaysPending(saved, base, es, r);
    OneStep(s, base, Spilled(r), Save(r, Frames.SpillSlot(base, r)));
    OneStep(Finally(saved, base, es), base, Ensured(r), Load(r, Frames.SpillSlot(base, r)));
    OneGenerated(s, base, Spilled(r));
    OneGenerated(Finally(saved, base, es), base, Ensured(r));
    GeneratedTwo(saved, base, es, [Ensured(r)]);
    OneFinally(s, base, Spilled(r));
    GeneratedTwo(s, base, [Spilled(r)], es + [Ensured(r)]);
    assert [Spilled(r)] + (es + [Ensured(r)]) == [Spilled(r)] + es + [Ensured(r)];
    var first, more, last := Generated(s, base, [Spilled(r)]), Generated(saved, base, es),
      Generated(Finally(saved, base, es), base, [Ensured(r)]);
    assert first + (more + last) == first + more + last;
  }

  lemma {:induction false} OneStep(s: Regs, base: int, e: Event, move: Move)
    requires s.Sized() && !e.Computed? && Moves(s, base, e) == [move]
    ensures StepsOf(s, base, e) == [Do(move)]
  {
    hide Moves;
  }

  lemma {:induction false} OneFinally(s: Regs, base: int, e: Event)
    requires s.Sized() && InRangeAll([e])
    ensures Finally(s, base, [e]) == Next(s, base, e)
  {
    assert [e][0] == e && [e][1..] == [];
  }

  lemma {:induction false} OneGenerated(s: Regs, base: int, e: Event)
    requires s.Sized() && InRangeAll([e])
    ensures Generated(s, base, [e]) == StepsOf(s, base, e)
  {
    assert [e][0] == e && [e][1..] == [];
  }

  lemma {:induction false} GeneratedTwo(s: Regs, base: int, a: seq<Event>, b: seq<Event>)
    requires s.Sized() && InRangeAll(a) && InRangeAll(b)
    ensures InRangeAll(a + b)
    ensures Generated(s, base, a + b) == Generated(s, base, a) + Generated(Finally(s, base, a), base, b)
    decreases |a|
  {
    hide StepsOf, Next;
    if |a| == 0 {
      assert a + b == b;
    } else {
      var t := Next(s, base, a[0]);
      assert (a + b)[0] == a[0] && (a + b)[1..] == a[1..] + b;
      GeneratedTwo(t, base, a[1..], b);
      var first, more := StepsOf(s, base, a[0]), Generated(t, base, a[1..]);
      var last := Generated(Finally(t, base, a[1..]), base, b);
      assert first + (more + last) == first + more + last;
    }
  }
}
