/** Stack frames: the count made before a function is generated, and the scopes that hand out
    slots while it is generated. */
module Frames {
  import opened Numbers
  import opened Options
  import Registers

  /** A name of the program, or one made up for a loop. */
  datatype Name = User(name: string) | Hidden(kind: string, id: nat)

  /** A statement as far as scopes and locals are concerned; a `Local` lists its names in the
      order in which they are registered. */
  datatype Stmt =
    | Local(names: seq<Name>)
    | If(then_: seq<Stmt>, else_: seq<Stmt>)
    | Do(body: seq<Stmt>)
    | While(body: seq<Stmt>)
    | Repeat(body: seq<Stmt>)
    | ForNumeric(index: Name, body: seq<Stmt>)
    | ForGeneric(vars: seq<Name>, body: seq<Stmt>)
    | FunctionDef(upvalues: seq<Name>, params: seq<Name>, body: seq<Stmt>)
    | Other

  // ---------------------------------------------------------------------------
  // Counting
  // ---------------------------------------------------------------------------

  function CountLocals(b: seq<Stmt>): nat {
    if |b| == 0 then 0 else CountIn(b[0]) + CountLocals(b[1..])
  }

  function CountIn(s: Stmt): nat {
    match s
    case Local(names) => |names|
    case If(t, e) => Max(CountLocals(t), CountLocals(e))
    case Do(b) => CountLocals(b)
    case While(b) => CountLocals(b)
    case Repeat(b) => CountLocals(b)
    case ForNumeric(_, b) => 4 + CountLocals(b)
    case ForGeneric(vars, b) => 3 + |vars| + CountLocals(b)
    case FunctionDef(_, _, _) => 0
    case Other => 0
  }

  method CountFunctionLocals(b: seq<Stmt>) returns (count: nat)
    ensures count == CountLocals(b)
    decreases b
  {
    count := 0;
    assert b[0..] == b;
    for i := 0 to |b|
      invariant CountLocals(b) == count + CountLocals(b[i..])
    {
      assert b[i..][1..] == b[i + 1..];
      match b[i]
      case Local(names) =>
        for k := 0 to |names|
          invariant CountLocals(b) == count + (|names| - k) + CountLocals(b[i + 1..])
        {
          count := count + 1;
        }
      case If(t, e) =>
        var max := CountFunctionLocals(t);
        var tmp := CountFunctionLocals(e);
        if tmp > max {
          max := tmp;
        }
        count := count + max;
      case ForNumeric(_, body) =>
        var n := CountFunctionLocals(body);
        count := count + 4 + n;
      case ForGeneric(vars, body) =>
        var n := CountFunctionLocals(body);
        count := count + 3 + |vars| + n;
      case Do(body) =>
        var n := CountFunctionLocals(body);
        count := count + n;
      case While(body) =>
        var n := CountFunctionLocals(body);
        count := count + n;
      case Repeat(body) =>
        var n := CountFunctionLocals(body);
        count := count + n;
      case FunctionDef(_, _, _) =>
      case Other =>
    }
  }

  // ---------------------------------------------------------------------------
  // Scopes
  // ---------------------------------------------------------------------------

  /** Where a name lives: a word below the frame base, a word above it, or global RAM. */
  datatype Symbol = Slot(name: Name, slot: nat) | Param(name: Name, offset: nat) | Global(name: Name)

  /** `counter` is the next slot of the scope; a boundary is the outermost scope of a
      function. */
  datatype Scope = Scope(symbols: seq<Symbol>, counter: nat, boundary: bool)

  /** The first symbol with the name. */
  function Lookup(symbols: seq<Symbol>, name: Name): (r: Option<Symbol>)
    ensures r.Some? ==> r.value in symbols && r.value.name == name
    ensures r.None? ==> forall s :: s in symbols ==> s.name != name
  {
    if |symbols| == 0 then None
    else if symbols[0].name == name then Some(symbols[0])
    else Lookup(symbols[1..], name)
  }

  /** The first slot a scope can hand out. */
  function Base(scopes: seq<Scope>, i: nat): nat
    requires i < |scopes|
  {
    if i == 0 || scopes[i].boundary then 1 else scopes[i - 1].counter
  }

  /** The slots of one scope: within its range, no slot twice. */
  ghost predicate SlotsOwn(s: Scope, base: nat) {
    && base <= s.counter
    && (forall k :: 0 <= k < |s.symbols| && s.symbols[k].Slot? ==> base <= s.symbols[k].slot < s.counter)
    && (forall k, l :: 0 <= k < l < |s.symbols| && s.symbols[k].Slot? && s.symbols[l].Slot? ==>
          s.symbols[k].slot != s.symbols[l].slot)
  }

  ghost predicate GlobalFirst(scopes: seq<Scope>) {
    && |scopes| > 0 && !scopes[0].boundary && scopes[0].counter == 1
    && (forall k :: 0 <= k < |scopes[0].symbols| ==> scopes[0].symbols[k].Global?)
  }

  /** The scopes from the global one inwards. */
  ghost predicate Layered(scopes: seq<Scope>) {
    && GlobalFirst(scopes)
    && (forall i :: 0 <= i < |scopes| ==> SlotsOwn(scopes[i], Base(scopes, i)))
  }

  /** No function boundary after scope `i` up to scope `j`: they belong to one frame. */
  ghost predicate SameFrame(scopes: seq<Scope>, i: nat, j: nat) {
    i <= j < |scopes| && forall k :: i < k <= j ==> !scopes[k].boundary
  }

  lemma {:induction false} CountersGrow(scopes: seq<Scope>, i: nat, j: nat)
    requires Layered(scopes) && SameFrame(scopes, i, j) && i < j
    ensures scopes[i].counter <= Base(scopes, j)
    decreases j
  {
    assert SlotsOwn(scopes[j - 1], Base(scopes, j - 1));
    if i < j - 1 {
      CountersGrow(scopes, i, j - 1);
    }
  }

  /** Two locals of one frame that are in scope at the same time have different slots, shadowed
      ones included. */
  lemma {:induction false} VisibleDistinct(scopes: seq<Scope>, i: nat, k: nat, j: nat, l: nat)
    requires Layered(scopes) && (SameFrame(scopes, i, j) || SameFrame(scopes, j, i)) && (i != j || k != l)
    requires i < |scopes| && k < |scopes[i].symbols| && scopes[i].symbols[k].Slot?
    requires j < |scopes| && l < |scopes[j].symbols| && scopes[j].symbols[l].Slot?
    ensures scopes[i].symbols[k].slot != scopes[j].symbols[l].slot
  {
    assert SlotsOwn(scopes[i], Base(scopes, i)) && SlotsOwn(scopes[j], Base(scopes, j));
    if i < j {
      CountersGrow(scopes, i, j);
    } else if j < i {
      CountersGrow(scopes, j, i);
    }
  }

  // ---------------------------------------------------------------------------
  // Resolving a name
  // ---------------------------------------------------------------------------

  /** What a name means in scope `i`: outwards to the function's outermost scope, then among
      the globals. */
  function Resolve(scopes: seq<Scope>, i: nat, name: Name): Option<Symbol>
    requires i < |scopes|
  {
    if Lookup(scopes[i].symbols, name).Some? then Lookup(scopes[i].symbols, name)
    else if i == 0 then None
    else if scopes[i].boundary then Lookup(scopes[0].symbols, name)
    else Resolve(scopes, i - 1, name)
  }

  /** A name never means a local of an enclosing function: it is global, or of the same frame
      with no nearer scope having it. */
  lemma {:induction false} ResolvesInFrame(scopes: seq<Scope>, i: nat, name: Name) returns (j: nat)
    requires GlobalFirst(scopes) && i < |scopes| && Resolve(scopes, i, name).Some?
    ensures j <= i && Resolve(scopes, i, name) == Lookup(scopes[j].symbols, name)
    ensures j == 0 || SameFrame(scopes, j, i)
    ensures j == 0 ==> Resolve(scopes, i, name).value.Global?
    ensures forall k :: j < k <= i && SameFrame(scopes, k, i) ==> Lookup(scopes[k].symbols, name).None?
  {
    if Lookup(scopes[i].symbols, name).Some? {
      j := i;
    } else if scopes[i].boundary {
      j := 0;
    } else {
      j := ResolvesInFrame(scopes, i - 1, name);
      forall k | j < k <= i && SameFrame(scopes, k, i)
        ensures Lookup(scopes[k].symbols, name).None?
      {
        assert k < i ==> SameFrame(scopes, k, i - 1);
      }
    }
  }

  // ---------------------------------------------------------------------------
  // Registering a local
  // ---------------------------------------------------------------------------

  /** The innermost scope after a name is registered as a local. */
  function Register(scopes: seq<Scope>, name: Name): (r: seq<Scope>)
    requires |scopes| > 0
    ensures |r| == |scopes|
  {
    var n := |scopes| - 1;
    var s := scopes[n];
    if Lookup(s.symbols, name).Some? then scopes
    else if n == 0 then scopes[n := Scope(s.symbols + [Global(name)], s.counter, s.boundary)]
    else scopes[n := Scope(s.symbols + [Slot(name, s.counter)], s.counter + 1, s.boundary)]
  }

  function RegisterAll(scopes: seq<Scope>, names: seq<Name>): (r: seq<Scope>)
    requires |scopes| > 0
    ensures |r| == |scopes|
    decreases |names|
  {
    if |names| == 0 then scopes else RegisterAll(Register(scopes, names[0]), names[1..])
  }

  /** The scopes after a block: only its own declarations remain. */
  function AfterBlock(scopes: seq<Scope>, b: seq<Stmt>): (r: seq<Scope>)
    requires |scopes| > 0
    ensures |r| == |scopes|
    decreases |b|
  {
    if |b| == 0 then scopes else AfterBlock(AfterStmt(scopes, b[0]), b[1..])
  }

  function AfterStmt(scopes: seq<Scope>, s: Stmt): (r: seq<Scope>)
    requires |scopes| > 0
    ensures |r| == |scopes|
  {
    if s.Local? then RegisterAll(scopes, s.names) else scopes
  }

  lemma {:induction false} SlotAdded(s: Scope, base: nat, name: Name)
    requires SlotsOwn(s, base)
    ensures SlotsOwn(Scope(s.symbols + [Slot(name, s.counter)], s.counter + 1, s.boundary), base)
  {}

  lemma {:induction false} OneMore(r: seq<Scope>, scopes: seq<Scope>)
    requires Layered(scopes) && |r| == |scopes| && r[..|scopes| - 1] == scopes[..|scopes| - 1]
    requires r[|r| - 1].boundary == scopes[|r| - 1].boundary && (|r| == 1 ==> GlobalFirst(r))
    requires SlotsOwn(r[|r| - 1], Base(scopes, |r| - 1))
    ensures Layered(r)
  {
    hide SlotsOwn;
    forall i | 0 <= i < |r|
      ensures SlotsOwn(r[i], Base(r, i))
    {
      assert i < |r| - 1 ==> r[i] == r[..|r| - 1][i] && scopes[i] == scopes[..|r| - 1][i];
      assert i > 0 ==> r[i - 1] == r[..|r| - 1][i - 1] && scopes[i - 1] == scopes[..|r| - 1][i - 1];
    }
    if |r| > 1 {
      assert r[0] == r[..|r| - 1][0] && scopes[0] == scopes[..|r| - 1][0];
    }
  }

  lemma {:induction false} RegisterLayered(scopes: seq<Scope>, name: Name)
    requires Layered(scopes)
    ensures Layered(Register(scopes, name))
    ensures Register(scopes, name)[..|scopes| - 1] == scopes[..|scopes| - 1]
    ensures var n := |scopes| - 1;
            scopes[n].counter <= Register(scopes, name)[n].counter <= scopes[n].counter + 1
    ensures Register(scopes, name)[|scopes| - 1].boundary == scopes[|scopes| - 1].boundary
  {
    hide Lookup;
    var n := |scopes| - 1;
    var r := Register(scopes, name);
    assert SlotsOwn(scopes[n], Base(scopes, n));
    if n > 0 {
      SlotAdded(scopes[n], Base(scopes, n), name);
      var c := scopes[n].counter;
      assert r == scopes || r[n] == Scope(scopes[n].symbols + [Slot(name, c)], c + 1, scopes[n].boundary);
    }
    OneMore(r, scopes);
  }

  // ---------------------------------------------------------------------------
  // A block uses at most what was counted
  // ---------------------------------------------------------------------------

  /** Only the innermost scope changes, and takes at most `n` more slots. */
  ghost predicate Extends(r: seq<Scope>, scopes: seq<Scope>, n: nat) {
    && |r| == |scopes| > 0 && Layered(r) && r[..|r| - 1] == scopes[..|r| - 1]
    && scopes[|r| - 1].counter <= r[|r| - 1].counter <= scopes[|r| - 1].counter + n
    && r[|r| - 1].boundary == scopes[|r| - 1].boundary
  }

  lemma {:induction false} ExtendsTwice(q: seq<Scope>, r: seq<Scope>, scopes: seq<Scope>, m: nat, n: nat)
    requires Extends(q, r, m) && Extends(r, scopes, n)
    ensures Extends(q, scopes, m + n)
  {}

  lemma {:induction false} RegisterExtends(scopes: seq<Scope>, name: Name)
    requires Layered(scopes)
    ensures Extends(Register(scopes, name), scopes, 1)
  {
    RegisterLayered(scopes, name);
  }

  lemma {:induction false} ExtendsWithin(r: seq<Scope>, scopes: seq<Scope>, n: nat)
    requires Extends(r, scopes, n)
    ensures |r| == |scopes| > 0 && Layered(r) && r[|r| - 1].counter <= scopes[|r| - 1].counter + n
    ensures r[..|r| - 1] == scopes[..|r| - 1] && scopes[|r| - 1].counter <= r[|r| - 1].counter
  {}

  lemma {:induction false} RegisterAllExtends(scopes: seq<Scope>, names: seq<Name>)
    requires Layered(scopes)
    ensures Extends(RegisterAll(scopes, names), scopes, |names|)
    decreases |names|
  {
    hide Register, SlotsOwn;
    if |names| > 0 {
      var r := Register(scopes, names[0]);
      RegisterLayered(scopes, names[0]);
      RegisterAllExtends(r, names[1..]);
      ExtendsTwice(RegisterAll(r, names[1..]), r, scopes, |names| - 1, 1);
    }
  }

  lemma {:induction false} BlockExtends(scopes: seq<Scope>, b: seq<Stmt>)
    requires |scopes| > 0 && Layered(scopes)
    ensures Extends(AfterBlock(scopes, b), scopes, CountLocals(b))
    decreases |b|
  {
    hide RegisterAll, Layered, Extends;
    if |b| == 0 {
      ExtendsSelf(scopes);
    } else if b[0].Local? {
      var r := RegisterAll(scopes, b[0].names);
      RegisterAllExtends(scopes, b[0].names);
      ExtendsLayered(r, scopes, |b[0].names|);
      BlockExtends(r, b[1..]);
      ExtendsTwice(AfterBlock(r, b[1..]), r, scopes, CountLocals(b[1..]), |b[0].names|);
    } else {
      BlockExtends(scopes, b[1..]);
      ExtendsSelf(scopes);
      ExtendsMore(AfterBlock(scopes, b[1..]), scopes, CountLocals(b[1..]), CountLocals(b));
    }
  }

  lemma {:induction false} ExtendsSelf(scopes: seq<Scope>)
    requires Layered(scopes)
    ensures Extends(scopes, scopes, 0)
  {}

  lemma {:induction false} ExtendsLayered(r: seq<Scope>, scopes: seq<Scope>, n: nat)
    requires Extends(r, scopes, n)
    ensures Layered(r)
  {}

  lemma {:induction false} ExtendsMore(r: seq<Scope>, scopes: seq<Scope>, m: nat, n: nat)
    requires Extends(r, scopes, m) && m <= n
    ensures Extends(r, scopes, n)
  {}

  lemma {:induction false} OwnSlot(s: Scope, base: nat, k: nat)
    requires SlotsOwn(s, base) && k < |s.symbols| && s.symbols[k].Slot?
    ensures base <= s.symbols[k].slot < s.counter
  {}

  /** Every slot of the innermost frame is below the innermost counter. */
  lemma {:induction false} SlotBelowCounter(scopes: seq<Scope>, i: nat, k: nat)
    requires i < |scopes| && Layered(scopes) && SameFrame(scopes, i, |scopes| - 1)
    requires k < |scopes[i].symbols| && scopes[i].symbols[k].Slot?
    ensures 1 <= scopes[i].symbols[k].slot < scopes[|scopes| - 1].counter
  {
    hide SlotsOwn;
    var n := |scopes| - 1;
    OwnSlot(scopes[i], Base(scopes, i), k);
    BaseFromOne(scopes, i);
    if i < n {
      CountersGrow(scopes, i, n);
      RangeGrows(scopes, n);
    }
  }

  lemma {:induction false} RangeGrows(scopes: seq<Scope>, i: nat)
    requires Layered(scopes) && i < |scopes|
    ensures Base(scopes, i) <= scopes[i].counter
  {
    assert SlotsOwn(scopes[i], Base(scopes, i));
  }

  lemma {:induction false} BaseFromOne(scopes: seq<Scope>, i: nat)
    requires Layered(scopes) && i < |scopes|
    ensures Base(scopes, i) >= 1
  {
    if i > 0 && !scopes[i].boundary {
      BaseFromOne(scopes, i - 1);
      assert SlotsOwn(scopes[i - 1], Base(scopes, i - 1));
    }
  }

  // ---------------------------------------------------------------------------
  // Spill slots
  // ---------------------------------------------------------------------------

  /** The word of a frame, relative to the frame base, in which a register is saved. */
  function SpillSlot(base: int, reg: int): int {
    base - reg - 1
  }

  /** A frame with `n` counted locals. */
  function SpillBase(n: nat): int {
    -(n + 1)
  }

  /** No two registers share a spill slot, and no spill slot is a local's word. */
  lemma {:induction false} SpillsDistinct(n: nat, a: nat, b: nat, slot: int)
    requires a < Registers.NUM_GPRS && b < Registers.NUM_GPRS
    ensures SpillSlot(SpillBase(n), a) == SpillSlot(SpillBase(n), b) <==> a == b
    ensures 1 <= slot <= n ==> SpillSlot(SpillBase(n), a) < -slot
  {}

  /** The frame reserves the words down to `-(n + NUM_GPRS)`: all spill slots but the last
      register's are in it. */
  lemma {:induction false} SpillReserved(n: nat, reg: nat)
    requires reg < Registers.NUM_GPRS
    ensures 0 - n - Registers.NUM_GPRS <= SpillSlot(SpillBase(n), reg) <= -1 <==> reg < Registers.NUM_GPRS - 1
  {}

  /** A variadic function keeps its argument count in the word below that reserve, which is the
      last register's spill slot. */
  function VarargCountSlot(n: nat): int {
    0 - n - Registers.NUM_GPRS - 1
  }

  lemma {:induction false} VarargSlotIsSpillSlot(n: nat, reg: nat)
    requires reg < Registers.NUM_GPRS
    ensures VarargCountSlot(n) == SpillSlot(SpillBase(n), reg) <==> reg == Registers.NUM_GPRS - 1
  {}

  lemma {:induction false} ChunkCounter(scopes: seq<Scope>)
    requires Layered(scopes)
    ensures scopes[0].counter == 1
  {}

  lemma {:induction false} PushedLayered(scopes: seq<Scope>, s: Scope)
    requires |scopes| > 0 && Layered(scopes) && forall k :: 0 <= k < |s.symbols| ==> !s.symbols[k].Slot?
    requires s.counter == if s.boundary then 1 else scopes[|scopes| - 1].counter
    ensures Layered(scopes + [s])
  {
    var r := scopes + [s];
    assert SlotsOwn(s, s.counter);
    forall i | 0 <= i < |r|
      ensures SlotsOwn(r[i], Base(r, i))
    {
      hide SlotsOwn;
      if i < |scopes| {
        assert SlotsOwn(scopes[i], Base(scopes, i)) && r[i] == scopes[i];
        assert i > 0 ==> r[i - 1] == scopes[i - 1];
      }
    }
  }

  lemma {:induction false} LookupAdded(symbols: seq<Symbol>, symbol: Symbol)
    requires Lookup(symbols, symbol.name).None?
    ensures Lookup(symbols + [symbol], symbol.name) == Some(symbol)
    decreases |symbols|
  {
    if |symbols| > 0 {
      assert (symbols + [symbol])[1..] == symbols[1..] + [symbol];
      LookupAdded(symbols[1..], symbol);
    }
  }

  lemma {:induction false} LookedUpSlot(scopes: seq<Scope>, name: Name, symbol: Symbol)
    requires |scopes| > 0 && Layered(scopes) && Lookup(scopes[|scopes| - 1].symbols, name) == Some(symbol)
    ensures symbol.Slot? ==> 1 <= symbol.slot < scopes[|scopes| - 1].counter
  {
    var n := |scopes| - 1;
    var k :| 0 <= k < |scopes[n].symbols| && scopes[n].symbols[k] == symbol;
    if symbol.Slot? {
      SlotBelowCounter(scopes, n, k);
    }
  }
}
