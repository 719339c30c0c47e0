/** Which slot every local of a program gets, as a function of the program, and that no slot is
    beyond what was counted. */
module FrameLayout {
  import opened Options
  import opened Frames

  /** A local is registered, or a nested function is generated with `n` slots of its own. */
  datatype Event = Placed(symbol: Symbol) | Function(n: nat, inner: seq<Event>)

  // ---------------------------------------------------------------------------
  // What is registered
  // ---------------------------------------------------------------------------

  /** A scope inside the current one. */
  function Pushed(scopes: seq<Scope>): (r: seq<Scope>)
    requires |scopes| > 0
    ensures |r| == |scopes| + 1
  {
    scopes + [Scope([], scopes[|scopes| - 1].counter, false)]
  }

  /** The outermost scope of a function, with its parameters. */
  function Entered(scopes: seq<Scope>, upvalues: seq<Name>, params: seq<Name>): (r: seq<Scope>)
    ensures |r| == |scopes| + 1
  {
    scopes + [Scope(Parameters(upvalues + params, 2), 1, true)]
  }

  /** Parameters from word `offset` above the frame's base on; `...` has none. */
  function Parameters(names: seq<Name>, offset: nat): (symbols: seq<Symbol>)
    ensures forall k :: 0 <= k < |symbols| ==> symbols[k].Param?
  {
    if |names| == 0 then []
    else if names[0] == User("...") then Parameters(names[1..], offset)
    else [Param(names[0], offset)] + Parameters(names[1..], offset + 1)
  }

  /** How many loops with names of their own a block contains. */
  function Loops(b: seq<Stmt>): nat {
    if |b| == 0 then 0 else LoopsIn(b[0]) + Loops(b[1..])
  }

  function LoopsIn(s: Stmt): nat {
    match s
    case If(t, e) => Loops(t) + Loops(e)
    case Do(b) => Loops(b)
    case While(b) => Loops(b)
    case Repeat(b) => Loops(b)
    case ForNumeric(_, b) => 1 + Loops(b)
    case ForGeneric(_, b) => 1 + Loops(b)
    case FunctionDef(_, _, b) => Loops(b)
    case _ => 0
  }

  function NumericNames(index: Name, id: nat): seq<Name> {
    [Hidden("limit", id), Hidden("step", id), Hidden("ctrl", id), index]
  }

  function StateNames(id: nat): seq<Name> {
    [Hidden("iter", id), Hidden("state", id), Hidden("key", id)]
  }

  /** What a name stands for once it is registered. */
  function Registered(scopes: seq<Scope>, name: Name): Symbol
    requires |scopes| > 0
  {
    var s := scopes[|scopes| - 1];
    if Lookup(s.symbols, name).Some? then Lookup(s.symbols, name).value
    else if |scopes| == 1 then Global(name)
    else Slot(name, s.counter)
  }

  function NamesLog(scopes: seq<Scope>, names: seq<Name>): seq<Event>
    requires |scopes| > 0
    decreases |names|
  {
    if |names| == 0 then []
    else [Placed(Registered(scopes, names[0]))] + NamesLog(Register(scopes, names[0]), names[1..])
  }

  function BlockLog(scopes: seq<Scope>, b: seq<Stmt>, id: nat): seq<Event>
    requires |scopes| > 0
    decreases b
  {
    if |b| == 0 then []
    else StmtLog(scopes, b[0], id) + BlockLog(AfterStmt(scopes, b[0]), b[1..], id + LoopsIn(b[0]))
  }

  function StmtLog(scopes: seq<Scope>, s: Stmt, id: nat): seq<Event>
    requires |scopes| > 0
    decreases s
  {
    match s
    case Local(names) => NamesLog(scopes, names)
    case If(t, e) => BlockLog(Pushed(scopes), t, id) + BlockLog(Pushed(scopes), e, id + Loops(t))
    case Do(b) => BlockLog(Pushed(scopes), b, id)
    case While(b) => BlockLog(Pushed(scopes), b, id)
    case Repeat(b) => BlockLog(Pushed(scopes), b, id)
    case ForNumeric(index, b) =>
      NamesLog(Pushed(scopes), NumericNames(index, id)) +
      BlockLog(RegisterAll(Pushed(scopes), NumericNames(index, id)), b, id + 1)
    case ForGeneric(vars, b) =>
      var inner := RegisterAll(Pushed(scopes), StateNames(id));
      NamesLog(Pushed(scopes), StateNames(id)) + NamesLog(inner, vars) +
      BlockLog(Pushed(RegisterAll(inner, vars)), b, id + 1)
    case FunctionDef(upvalues, params, b) =>
      [Function(CountLocals(b), BlockLog(Entered(scopes, upvalues, params), b, id))]
    case Other => []
  }

  // ---------------------------------------------------------------------------
  // The count suffices
  // ---------------------------------------------------------------------------

  /** Every slot is at most `limit`, and those of nested functions are at most what was counted
      for each of them. */
  ghost predicate Fits(log: seq<Event>, limit: int)
    decreases log
  {
    forall i :: 0 <= i < |log| ==>
      match log[i]
      case Placed(symbol) => symbol.Slot? ==> 1 <= symbol.slot <= limit
      case Function(n, inner) => Fits(inner, n)
  }

  lemma {:induction false} FitsTwo(a: seq<Event>, b: seq<Event>, limit: int)
    requires Fits(a, limit) && Fits(b, limit)
    ensures Fits(a + b, limit)
  {}

  lemma {:induction false} FitsFunction(n: nat, inner: seq<Event>, limit: int)
    requires Fits(inner, n)
    ensures Fits([Function(n, inner)], limit)
  {}

  lemma {:induction false} RegisteredFits(scopes: seq<Scope>, name: Name)
    requires |scopes| > 0 && Layered(scopes)
    ensures var symbol := Registered(scopes, name);
            symbol.Slot? ==> 1 <= symbol.slot < Register(scopes, name)[|scopes| - 1].counter
  {
    hide Layered, SlotsOwn;
    var n := |scopes| - 1;
    var s := scopes[n];
    if Lookup(s.symbols, name).Some? {
      LookedUpSlot(scopes, name, Lookup(s.symbols, name).value);
    } else {
      BaseFromOne(scopes, n);
      RangeGrows(scopes, n);
    }
  }

  lemma {:induction false} NamesFit(scopes: seq<Scope>, names: seq<Name>, limit: int)
    requires |scopes| > 0 && Layered(scopes) && scopes[|scopes| - 1].counter + |names| <= limit + 1
    ensures Fits(NamesLog(scopes, names), limit)
    decreases |names|
  {
    hide Layered, Register, Registered;
    if |names| > 0 {
      var r := Register(scopes, names[0]);
      RegisterExtends(scopes, names[0]);
      ExtendsWithin(r, scopes, 1);
      RegisteredFits(scopes, names[0]);
      NamesFit(r, names[1..], limit);
      FitsTwo([Placed(Registered(scopes, names[0]))], NamesLog(r, names[1..]), limit);
    }
  }

  lemma {:induction false} AfterNames(scopes: seq<Scope>, names: seq<Name>)
    requires |scopes| > 0 && Layered(scopes)
    ensures var r := RegisterAll(scopes, names);
            Layered(r) && r[|r| - 1].counter <= scopes[|scopes| - 1].counter + |names|
  {
    RegisterAllExtends(scopes, names);
    ExtendsWithin(RegisterAll(scopes, names), scopes, |names|);
  }

  lemma {:induction false} PushedFits(scopes: seq<Scope>)
    requires |scopes| > 0 && Layered(scopes)
    ensures var r := Pushed(scopes); Layered(r) && r[|r| - 1].counter == scopes[|scopes| - 1].counter
  {
    PushedLayered(scopes, Scope([], scopes[|scopes| - 1].counter, false));
  }

  /** A block of statements: as many slots as were counted are enough, in the block itself and in
      every function inside it. */
  lemma {:induction false} BlockFits(scopes: seq<Scope>, b: seq<Stmt>, id: nat, limit: int)
    requires |scopes| > 0 && Layered(scopes) && scopes[|scopes| - 1].counter + CountLocals(b) <= limit + 1
    ensures Fits(BlockLog(scopes, b, id), limit)
    decreases b, 0
  {
    hide Layered, Fits, StmtLog, RegisterAll;
    if |b| > 0 {
      StmtFits(scopes, b[0], id, limit);
      var next := AfterStmt(scopes, b[0]);
      if b[0].Local? {
        AfterNames(scopes, b[0].names);
      }
      BlockFits(next, b[1..], id + LoopsIn(b[0]), limit);
      FitsTwo(StmtLog(scopes, b[0], id), BlockLog(next, b[1..], id + LoopsIn(b[0])), limit);
    } else {
      NothingFits(limit);
    }
  }

  lemma {:induction false} NothingFits(limit: int)
    ensures Fits([], limit)
  {}

  lemma {:induction false} StmtFits(scopes: seq<Scope>, s: Stmt, id: nat, limit: int)
    requires |scopes| > 0 && Layered(scopes) && scopes[|scopes| - 1].counter + CountIn(s) <= limit + 1
    ensures Fits(StmtLog(scopes, s, id), limit)
    decreases s
  {
    hide Layered, Fits, BlockLog, RegisterAll, NamesLog, CountLocals, Pushed, Entered;
    PushedFits(scopes);
    match s
    case Local(names) =>
      NamesFit(scopes, names, limit);
    case If(t, e) =>
      BlockFits(Pushed(scopes), t, id, limit);
      BlockFits(Pushed(scopes), e, id + Loops(t), limit);
      FitsTwo(BlockLog(Pushed(scopes), t, id), BlockLog(Pushed(scopes), e, id + Loops(t)), limit);
    case Do(b) =>
      BlockFits(Pushed(scopes), b, id, limit);
    case While(b) =>
      BlockFits(Pushed(scopes), b, id, limit);
    case Repeat(b) =>
      BlockFits(Pushed(scopes), b, id, limit);
    case ForNumeric(index, b) =>
      NumericFits(scopes, index, b, id, limit);
    case ForGeneric(vars, b) =>
      GenericFits(scopes, vars, b, id, limit);
    case FunctionDef(upvalues, params, b) =>
      FunctionFits(scopes, upvalues, params, b, id, limit);
    case Other =>
      NothingFits(limit);
  }

  lemma {:induction false} NumericFits(scopes: seq<Scope>, index: Name, b: seq<Stmt>, id: nat, limit: int)
    requires |scopes| > 0 && Layered(scopes) && scopes[|scopes| - 1].counter + 4 + CountLocals(b) <= limit + 1
    ensures Fits(StmtLog(scopes, ForNumeric(index, b), id), limit)
    decreases b, 1
  {
    hide Layered, Fits, BlockLog, RegisterAll, NamesLog, CountLocals;
    PushedFits(scopes);
    var names := NumericNames(index, id);
    var inner := RegisterAll(Pushed(scopes), names);
    AfterNames(Pushed(scopes), names);
    NamesFit(Pushed(scopes), names, limit);
    BlockFits(inner, b, id + 1, limit);
    FitsTwo(NamesLog(Pushed(scopes), names), BlockLog(inner, b, id + 1), limit);
  }

  lemma {:induction false} GenericFits(scopes: seq<Scope>, vars: seq<Name>, b: seq<Stmt>, id: nat, limit: int)
    requires |scopes| > 0 && Layered(scopes) && scopes[|scopes| - 1].counter + 3 + |vars| + CountLocals(b) <= limit + 1
    ensures Fits(StmtLog(scopes, ForGeneric(vars, b), id), limit)
    decreases b, 1
  {
    hide Layered, Fits, BlockLog, RegisterAll, NamesLog, CountLocals;
    PushedFits(scopes);
    var p := Pushed(scopes);
    var inner := RegisterAll(p, StateNames(id));
    var body := RegisterAll(inner, vars);
    AfterNames(p, StateNames(id));
    NamesFit(p, StateNames(id), limit);
    AfterNames(inner, vars);
    NamesFit(inner, vars, limit);
    PushedFits(body);
    BlockFits(Pushed(body), b, id + 1, limit);
    FitsTwo(NamesLog(p, StateNames(id)), NamesLog(inner, vars), limit);
    FitsTwo(NamesLog(p, StateNames(id)) + NamesLog(inner, vars), BlockLog(Pushed(body), b, id + 1), limit);
  }

  /** A function is generated with as many slots as its body needs, whatever surrounds it. */
  lemma {:induction false} FunctionFits(scopes: seq<Scope>, upvalues: seq<Name>, params: seq<Name>, b: seq<Stmt>,
      id: nat, limit: int)
    requires |scopes| > 0 && Layered(scopes)
    ensures Fits(StmtLog(scopes, FunctionDef(upvalues, params, b), id), limit)
    decreases b, 1
  {
    hide Layered, Fits, BlockLog, CountLocals, Parameters;
    PushedLayered(scopes, Scope(Parameters(upvalues + params, 2), 1, true));
    var inner := Entered(scopes, upvalues, params);
    BlockFits(inner, b, id, CountLocals(b));
    FitsFunction(CountLocals(b), BlockLog(inner, b, id), limit);
  }
}
