/** The walk over a program that pushes scopes, registers locals and keeps each function's frame
    apart. */
module CodeGenerator {
  import opened Options
  import opened Frames
  import opened FrameLayout

  class Generator {
    var scopes: seq<Scope>
    var spillBase: int
    var nextId: nat
    /** What has been registered in the current function. */
    ghost var log: seq<Event>

    /** How many slots the current frame has for locals. */
    ghost function Limit(): int
      reads this
    {
      -spillBase - 1
    }

    ghost predicate Valid()
      reads this
    {
      |scopes| > 0 && Layered(scopes) && scopes[|scopes| - 1].counter <= Limit() + 1
    }

    /** At least `n` more slots are left in the frame. */
    ghost predicate Room(n: nat)
      reads this
      requires |scopes| > 0
    {
      scopes[|scopes| - 1].counter + n <= Limit() + 1
    }

    constructor ()
      ensures Valid() && scopes == [Scope([], 1, false)] && log == [] && nextId == 0
    {
      scopes := [Scope([], 1, false)];
      spillBase := -1;
      nextId := 0;
      log := [];
    }

    method PushScope()
      requires Valid()
      modifies `scopes
      ensures Valid() && scopes == Pushed(old(scopes))
    {
      ghost var before := scopes;
      scopes := scopes + [Scope([], scopes[|scopes| - 1].counter, false)];
      PushedLayered(before, scopes[|scopes| - 1]);
    }

    /** Fails on the global scope. */
    method PopScope() returns (ok: bool)
      requires |scopes| > 0
      modifies `scopes
      ensures ok <==> |old(scopes)| > 1
      ensures scopes == if ok then old(scopes)[..|old(scopes)| - 1] else old(scopes)
    {
      ok := |scopes| > 1;
      if ok {
        scopes := scopes[..|scopes| - 1];
      }
    }

    /** The search from the current scope outwards. */
    method ResolveSymbol(name: Name) returns (r: Option<Symbol>)
      requires |scopes| > 0
      ensures r == Resolve(scopes, |scopes| - 1, name)
    {
      hide Lookup;
      var i := |scopes| - 1;
      while true
        invariant 0 <= i < |scopes| && Resolve(scopes, i, name) == Resolve(scopes, |scopes| - 1, name)
        decreases i
      {
        var found := Lookup(scopes[i].symbols, name);
        if found.Some? {
          return found;
        }
        if i == 0 {
          return None;
        }
        if scopes[i].boundary {
          return Lookup(scopes[0].symbols, name);
        }
        i := i - 1;
      }
    }

    method RegisterLocal(name: Name) returns (symbol: Symbol)
      requires Valid() && Room(1)
      modifies `scopes, `log
      ensures Valid() && scopes == Register(old(scopes), name)
      ensures symbol == Registered(old(scopes), name) && log == old(log) + [Placed(symbol)]
      ensures Extends(scopes, old(scopes), 1)
      ensures Lookup(scopes[|scopes| - 1].symbols, name) == Some(symbol)
      ensures symbol.Slot? ==> 1 <= symbol.slot <= Limit()
    {
      hide Lookup, Layered, Extends;
      var n := |scopes| - 1;
      RegisterExtends(scopes, name);
      ExtendsWithin(Register(scopes, name), scopes, 1);
      var known := Lookup(scopes[n].symbols, name);
      var inner := scopes[n];
      if known.Some? {
        symbol := known.value;
      } else if n == 0 {
        symbol := Global(name);
        scopes := scopes[n := Scope(inner.symbols + [symbol], inner.counter, inner.boundary)];
      } else {
        symbol := Slot(name, inner.counter);
        scopes := scopes[n := Scope(inner.symbols + [symbol], inner.counter + 1, inner.boundary)];
      }
      if known.None? {
        LookupAdded(inner.symbols, symbol);
      }
      LookedUpSlot(scopes, name, symbol);
      log := log + [Placed(symbol)];
    }

    /** The statements of a block, in the current scope. */
    method GenerateBlock(b: seq<Stmt>)
      requires Valid() && Room(CountLocals(b))
      modifies this
      ensures Valid() && scopes == AfterBlock(old(scopes), b) && spillBase == old(spillBase)
      ensures Extends(scopes, old(scopes), CountLocals(b))
      ensures log == old(log) + BlockLog(old(scopes), b, old(nextId)) && nextId == old(nextId) + Loops(b)
      decreases b, 0
    {
      hide Layered, Extends, StmtLog, LoopsIn, RegisterAll;
      BlockExtends(scopes, b);
      ExtendsWithin(AfterBlock(scopes, b), scopes, CountLocals(b));
      for i := 0 to |b|
        invariant Valid() && Room(CountLocals(b[i..])) && spillBase == old(spillBase)
        invariant AfterBlock(scopes, b[i..]) == AfterBlock(old(scopes), b)
        invariant log + BlockLog(scopes, b[i..], nextId) == old(log) + BlockLog(old(scopes), b, old(nextId))
        invariant nextId + Loops(b[i..]) == old(nextId) + Loops(b)
      {
        assert b[i..][1..] == b[i + 1..];
        ghost var before := scopes;
        ghost var done, now := log, StmtLog(scopes, b[i], nextId);
        Grouped(done, now, BlockLog(AfterStmt(scopes, b[i]), b[i + 1..], nextId + LoopsIn(b[i])));
        GenerateStatement(b[i]);
        if b[i].Local? {
          ExtendsWithin(scopes, before, |b[i].names|);
        }
      }
    }

    method GenerateStatement(s: Stmt)
      requires Valid() && Room(CountIn(s))
      modifies this
      ensures Valid() && spillBase == old(spillBase) && |scopes| == |old(scopes)|
      ensures scopes == if s.Local? then RegisterAll(old(scopes), s.names) else old(scopes)
      ensures s.Local? ==> Extends(scopes, old(scopes), |s.names|)
      ensures log == old(log) + StmtLog(old(scopes), s, old(nextId)) && nextId == old(nextId) + LoopsIn(s)
      decreases s
    {
      hide Layered, CountLocals, Extends, RegisterAll, BlockLog, NamesLog, Pushed, Loops;
      match s
      case Local(names) =>
        RegisterNames(names);
      case If(t, e) =>
        GenerateNested(t);
        if |e| > 0 {
          GenerateNested(e);
        } else {
          NoStatements(Pushed(scopes), e, nextId);
        }
      case Do(b) =>
        GenerateNested(b);
      case While(b) =>
        GenerateNested(b);
      case Repeat(b) =>
        GenerateNested(b);
      case ForNumeric(index, b) =>
        GenerateNumeric(index, b);
      case ForGeneric(vars, b) =>
        GenerateGeneric(vars, b);
      case FunctionDef(upvalues, params, b) =>
        GenerateFunction(upvalues, params, b);
      case Other =>
    }

    method RegisterNames(names: seq<Name>)
      requires Valid() && Room(|names|)
      modifies `scopes, `log
      ensures Valid() && scopes == RegisterAll(old(scopes), names)
      ensures Extends(scopes, old(scopes), |names|)
      ensures log == old(log) + NamesLog(old(scopes), names)
    {
      hide Layered, Register, Registered, Extends;
      RegisterAllExtends(scopes, names);
      for i := 0 to |names|
        invariant Valid() && Room(|names| - i)
        invariant RegisterAll(scopes, names[i..]) == RegisterAll(old(scopes), names)
        invariant log + NamesLog(scopes, names[i..]) == old(log) + NamesLog(old(scopes), names)
      {
        assert names[i..][1..] == names[i + 1..];
        Grouped(log, [Placed(Registered(scopes, names[i]))], NamesLog(Register(scopes, names[i]), names[i + 1..]));
        ghost var before := scopes;
        var symbol := RegisterLocal(names[i]);
        ExtendsWithin(scopes, before, 1);
      }
    }

    /** A block in a scope of its own. */
    method GenerateNested(b: seq<Stmt>)
      requires Valid() && Room(CountLocals(b))
      modifies this
      ensures Valid() && scopes == old(scopes) && spillBase == old(spillBase)
      ensures log == old(log) + BlockLog(Pushed(old(scopes)), b, old(nextId)) && nextId == old(nextId) + Loops(b)
      decreases b, 1
    {
      hide Layered, CountLocals, AfterBlock, BlockLog, Loops;
      PushScope();
      GenerateBlock(b);
      var ok := PopScope();
    }

    /** Limit, step, control and index share the scope of the body. */
    method GenerateNumeric(index: Name, b: seq<Stmt>)
      requires Valid() && Room(4 + CountLocals(b))
      modifies this
      ensures Valid() && scopes == old(scopes) && spillBase == old(spillBase)
      ensures log == old(log) + StmtLog(old(scopes), ForNumeric(index, b), old(nextId))
      ensures nextId == old(nextId) + 1 + Loops(b)
      decreases b, 2
    {
      hide Layered, CountLocals, AfterBlock, RegisterAll, BlockLog, NamesLog, Loops;
      var id := nextId;
      nextId := nextId + 1;
      PushScope();
      ghost var p, names := scopes, NumericNames(index, id);
      RegisterNames([Hidden("limit", id), Hidden("step", id), Hidden("ctrl", id), index]);
      Grouped(old(log), NamesLog(p, names), BlockLog(scopes, b, nextId));
      GenerateBlock(b);
      var ok := PopScope();
    }

    /** Iterator state and loop variables, then the body in a scope inside theirs. */
    method GenerateGeneric(vars: seq<Name>, b: seq<Stmt>)
      requires Valid() && Room(3 + |vars| + CountLocals(b))
      modifies this
      ensures Valid() && scopes == old(scopes) && spillBase == old(spillBase)
      ensures log == old(log) + StmtLog(old(scopes), ForGeneric(vars, b), old(nextId))
      ensures nextId == old(nextId) + 1 + Loops(b)
      decreases b, 2
    {
      hide Layered, CountLocals, AfterBlock, RegisterAll, BlockLog, NamesLog, Loops;
      var id := nextId;
      nextId := nextId + 1;
      PushScope();
      ghost var p, names := scopes, StateNames(id);
      RegisterNames([Hidden("iter", id), Hidden("state", id), Hidden("key", id)]);
      ghost var inner := scopes;
      RegisterNames(vars);
      Grouped(old(log), NamesLog(p, names), NamesLog(inner, vars));
      Grouped(old(log), NamesLog(p, names) + NamesLog(inner, vars), BlockLog(Pushed(scopes), b, nextId));
      GenerateNested(b);
      var ok := PopScope();
    }

    /** A function gets a frame of its own: as many slots as were counted, and spill slots
        below them. The frame of the code around it is the same afterwards. */
    method GenerateFunction(upvalues: seq<Name>, params: seq<Name>, b: seq<Stmt>)
      requires Valid()
      modifies this
      ensures Valid() && scopes == old(scopes) && spillBase == old(spillBase)
      ensures log == old(log) + StmtLog(old(scopes), FunctionDef(upvalues, params, b), old(nextId))
      ensures nextId == old(nextId) + Loops(b)
      decreases b, 2
    {
      hide Layered, AfterBlock, BlockLog, Parameters, Loops;
      var saved := spillBase;
      ghost var outer := log;
      log := [];
      var n := CountFunctionLocals(b);
      spillBase := SpillBase(n);
      var symbols := Parameters(upvalues + params, 2);
      PushedLayered(scopes, Scope(symbols, 1, true));
      scopes := scopes + [Scope(symbols, 1, true)];
      ghost var events := BlockLog(scopes, b, nextId);
      assert [] + events == events;
      GenerateBlock(b);
      var ok := PopScope();
      spillBase := saved;
      log := outer + [Function(n, log)];
    }

    /** The statements of the chunk; its own locals become globals and take no slots. */
    method GenerateGlobalSetup(chunk: seq<Stmt>)
      requires Valid() && |scopes| == 1
      modifies this
      ensures Valid() && scopes == AfterBlock(old(scopes), chunk) && spillBase == SpillBase(CountLocals(chunk))
      ensures log == old(log) + BlockLog(old(scopes), chunk, old(nextId))
    {
      hide Layered, AfterBlock;
      assert scopes[0].counter == 1 by {
        ChunkCounter(scopes);
      }
      var n := CountFunctionLocals(chunk);
      spillBase := SpillBase(n);
      GenerateBlock(chunk);
    }
  }

  lemma {:induction false} Grouped(a: seq<Event>, b: seq<Event>, c: seq<Event>)
    ensures a + (b + c) == a + b + c
  {}

  lemma {:induction false} NoStatements(scopes: seq<Scope>, b: seq<Stmt>, id: nat)
    requires |scopes| > 0 && |b| == 0
    ensures BlockLog(scopes, b, id) == [] && Loops(b) == 0
  {}
}
