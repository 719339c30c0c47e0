/** Which word each name of a function gets, spelled out construct by construct, and when every
    counted word is really used. */
module FrameRules {
  import opened Options
  import opened Frames
  import opened FrameLayout

  // ---------------------------------------------------------------------------
  // Parameters
  // ---------------------------------------------------------------------------

  /** The parameters that have a word: all but `...`. */
  ghost function Fixed(params: seq<Name>): seq<Name> {
    if |params| == 0 then []
    else if params[0] == User("...") then Fixed(params[1..])
    else [params[0]] + Fixed(params[1..])
  }

  lemma {:induction false} ParametersAre(names: seq<Name>, offset: nat)
    ensures var fixed := Fixed(names);
            Parameters(names, offset) == seq(|fixed|, k requires 0 <= k < |fixed| => Param(fixed[k], offset + k))
    decreases |names|
  {
    if |names| > 0 {
      var more := Fixed(names[1..]);
      if names[0] == User("...") {
        ParametersAre(names[1..], offset);
      } else {
        ParametersAre(names[1..], offset + 1);
        var fixed := Fixed(names);
        assert forall k :: 0 < k < |fixed| ==> fixed[k] == more[k - 1];
        assert Parameters(names, offset) == seq(|fixed|, k requires 0 <= k < |fixed| => Param(fixed[k], offset + k));
      }
    }
  }

  lemma {:induction false} FixedTwo(a: seq<Name>, b: seq<Name>)
    requires User("...") !in a
    ensures Fixed(a + b) == a + Fixed(b)
    decreases |a|
  {
    if |a| == 0 {
      assert a + b == b && a + Fixed(b) == Fixed(b);
    } else {
      assert (a + b)[1..] == a[1..] + b;
      FixedTwo(a[1..], b);
      assert [a[0]] + (a[1..] + Fixed(b)) == a + Fixed(b);
    }
  }

  /** A function's frame starts with its upvalues, from word 2 above the base on, then its
      parameters without `...`; its own locals start at word 1 below the base. */
  lemma {:induction false} FrameStarts(scopes: seq<Scope>, upvalues: seq<Name>, params: seq<Name>)
    requires User("...") !in upvalues
    ensures var names := upvalues + Fixed(params);
            Entered(scopes, upvalues, params) == scopes +
              [Scope(seq(|names|, k requires 0 <= k < |names| => Param(names[k], 2 + k)), 1, true)]
  {
    FixedTwo(upvalues, params);
    ParametersAre(upvalues + params, 2);
  }

  // ---------------------------------------------------------------------------
  // Locals
  // ---------------------------------------------------------------------------

  ghost predicate Distinct(names: seq<Name>) {
    forall i, j :: 0 <= i < j < |names| ==> names[i] != names[j]
  }

  /** The innermost scope, which is not the chunk's, has exactly these names, and `c` is its next
      word. */
  ghost predicate Has(scopes: seq<Scope>, names: seq<Name>, c: nat) {
    && |scopes| > 1 && scopes[|scopes| - 1].counter == c
    && forall name :: Lookup(scopes[|scopes| - 1].symbols, name).Some? <==> name in names
  }

  /** Names in consecutive words from `c` on. */
  ghost function Words(names: seq<Name>, c: nat): seq<Event> {
    seq(|names|, k requires 0 <= k < |names| => Placed(Slot(names[k], c + k)))
  }

  lemma {:induction false} LookupMore(symbols: seq<Symbol>, symbol: Symbol, name: Name)
    ensures Lookup(symbols + [symbol], name).Some? <==> Lookup(symbols, name).Some? || name == symbol.name
  {
    if |symbols| == 0 {
      assert symbols + [symbol] == [symbol];
    } else {
      assert (symbols + [symbol])[1..] == symbols[1..] + [symbol];
      LookupMore(symbols[1..], symbol, name);
    }
  }

  lemma {:induction false} RegisterNew(scopes: seq<Scope>, names: seq<Name>, c: nat, name: Name)
    requires |scopes| > 1 && Has(scopes, names, c) && name !in names
    ensures Registered(scopes, name) == Slot(name, c)
    ensures Has(Register(scopes, name), names + [name], c + 1)
  {
    hide Lookup;
    var s := scopes[|scopes| - 1];
    forall x
      ensures Lookup(s.symbols + [Slot(name, c)], x).Some? <==> x in names + [name]
    {
      LookupMore(s.symbols, Slot(name, c), x);
    }
  }

  lemma {:induction false} FirstIsNew(taken: seq<Name>, names: seq<Name>)
    requires Distinct(taken + names) && |names| > 0
    ensures names[0] !in taken
  {
    var all := taken + names;
    assert all[|taken|] == names[0] && forall i :: 0 <= i < |taken| ==> all[i] == taken[i];
  }

  /** New names of one scope get consecutive words. */
  lemma {:induction false} RegisterNews(scopes: seq<Scope>, taken: seq<Name>, c: nat, names: seq<Name>)
    requires |scopes| > 1 && Has(scopes, taken, c) && Distinct(taken + names)
    ensures NamesLog(scopes, names) == Words(names, c)
    ensures Has(RegisterAll(scopes, names), taken + names, c + |names|)
    decreases |names|
  {
    hide Has, Register, Registered;
    if |names| == 0 {
      assert taken + names == taken;
    } else {
      FirstIsNew(taken, names);
      RegisterNew(scopes, taken, c, names[0]);
      assert taken + [names[0]] + names[1..] == taken + names;
      RegisterNews(Register(scopes, names[0]), taken + [names[0]], c + 1, names[1..]);
      assert Words(names, c) == [Placed(Slot(names[0], c))] + Words(names[1..], c + 1);
    }
  }

  /** The names made up for a loop differ from each other and from those of the program. */
  lemma {:induction false} LoopNames(id: nat, index: Name)
    requires index.User?
    ensures Distinct([Hidden("limit", id), Hidden("step", id), Hidden("ctrl", id), index])
    ensures Distinct([Hidden("iter", id), Hidden("state", id), Hidden("key", id)])
  {
    assert "limit"[0] == 'l' && "step"[0] == 's' && "ctrl"[0] == 'c';
    assert "iter"[0] == 'i' && "state"[0] == 's' && "key"[0] == 'k';
  }

  lemma {:induction false} StateAndVars(state: seq<Name>, vars: seq<Name>)
    requires Distinct(state) && Distinct(vars)
    requires forall k :: 0 <= k < |state| ==> state[k].Hidden?
    requires forall k :: 0 <= k < |vars| ==> vars[k].User?
    ensures Distinct(state + vars)
  {}

  lemma {:induction false} PushedHas(scopes: seq<Scope>, taken: seq<Name>, c: nat)
    requires |scopes| > 1 && Has(scopes, taken, c)
    ensures Has(Pushed(scopes), [], c)
  {}

  /** A numeric `for` takes four words, for limit, step, control and index; its body goes on in
      the same scope. */
  lemma {:induction false} NumericWords(
    scopes: seq<Scope>, taken: seq<Name>, c: nat, index: string, b: seq<Stmt>, id: nat)
    requires |scopes| > 1 && Has(scopes, taken, c)
    ensures var names := [Hidden("limit", id), Hidden("step", id), Hidden("ctrl", id), User(index)];
            var inner := RegisterAll(Pushed(scopes), names);
            && Has(inner, names, c + 4)
            && StmtLog(scopes, ForNumeric(User(index), b), id) == Words(names, c) + BlockLog(inner, b, id + 1)
  {
    hide Has, BlockLog, RegisterAll, NamesLog, Distinct;
    var names := [Hidden("limit", id), Hidden("step", id), Hidden("ctrl", id), User(index)];
    LoopNames(id, User(index));
    PushedHas(scopes, taken, c);
    assert [] + names == names;
    RegisterNews(Pushed(scopes), [], c, names);
  }

  /** A generic `for` takes three words for its state and one for each of its variables; its body
      is a scope inside theirs. */
  lemma {:induction false} GenericWords(
    scopes: seq<Scope>, taken: seq<Name>, c: nat, vars: seq<Name>, b: seq<Stmt>, id: nat)
    requires |scopes| > 1 && Has(scopes, taken, c) && Distinct(vars) && forall k :: 0 <= k < |vars| ==> vars[k].User?
    ensures var state := [Hidden("iter", id), Hidden("state", id), Hidden("key", id)];
            var inner := RegisterAll(RegisterAll(Pushed(scopes), state), vars);
            && Has(Pushed(inner), [], c + 3 + |vars|)
            && StmtLog(scopes, ForGeneric(vars, b), id)
               == Words(state, c) + Words(vars, c + 3) + BlockLog(Pushed(inner), b, id + 1)
  {
    hide Has, BlockLog, RegisterAll, NamesLog, Distinct;
    var state := [Hidden("iter", id), Hidden("state", id), Hidden("key", id)];
    LoopNames(id, User(""));
    StateAndVars(state, vars);
    PushedHas(scopes, taken, c);
    assert [] + state == state;
    RegisterNews(Pushed(scopes), [], c, state);
    RegisterNews(RegisterAll(Pushed(scopes), state), state, c + 3, vars);
    PushedHas(RegisterAll(RegisterAll(Pushed(scopes), state), vars), state + vars, c + 3 + |vars|);
  }

  // ---------------------------------------------------------------------------
  // Every counted word is used
  // ---------------------------------------------------------------------------

  /** A block whose counted words are all needed at once: its locals are new in their scopes, and
      what needs words beside them comes last. Functions inside do not matter. */
  ghost predicate Snug(b: seq<Stmt>, taken: seq<Name>, id: nat)
    decreases b
  {
    |b| == 0 ||
    match b[0]
    case Local(names) => Distinct(taken + names) && Snug(b[1..], taken + names, id)
    case FunctionDef(_, _, body) => Snug(b[1..], taken, id + Loops(body))
    case Other => Snug(b[1..], taken, id)
    case s => |b| == 1 && SnugIn(s, id)
  }

  ghost predicate SnugIn(s: Stmt, id: nat)
    decreases s
  {
    match s
    case If(t, e) =>
      if CountLocals(t) >= CountLocals(e) then Snug(t, [], id) else Snug(e, [], id + Loops(t))
    case Do(b) => Snug(b, [], id)
    case While(b) => Snug(b, [], id)
    case Repeat(b) => Snug(b, [], id)
    case ForNumeric(index, b) =>
      index.User? && Snug(b, [Hidden("limit", id), Hidden("step", id), Hidden("ctrl", id), index], id + 1)
    case ForGeneric(vars, b) =>
      Distinct(vars) && (forall k :: 0 <= k < |vars| ==> vars[k].User?) && Snug(b, [], id + 1)
    case _ => false
  }

  ghost predicate UsesWord(log: seq<Event>, n: int) {
    exists i :: 0 <= i < |log| && log[i].Placed? && log[i].symbol.Slot? && log[i].symbol.slot == n
  }

  lemma {:induction false} UsesEither(a: seq<Event>, b: seq<Event>, n: int)
    requires UsesWord(a, n) || UsesWord(b, n)
    ensures UsesWord(a + b, n)
  {
    if UsesWord(a, n) {
      var i :| 0 <= i < |a| && a[i].Placed? && a[i].symbol.Slot? && a[i].symbol.slot == n;
      assert (a + b)[i] == a[i];
    } else {
      var i :| 0 <= i < |b| && b[i].Placed? && b[i].symbol.Slot? && b[i].symbol.slot == n;
      assert (a + b)[|a| + i] == b[i];
    }
  }

  lemma {:induction false} WordsUse(names: seq<Name>, c: nat)
    requires |names| > 0
    ensures UsesWord(Words(names, c), c + |names| - 1)
  {
    assert Words(names, c)[|names| - 1] == Placed(Slot(names[|names| - 1], c + |names| - 1));
  }

  /** In such a block the last counted word is used: for no construct is the count too large. */
  lemma {:induction false} SnugUses(scopes: seq<Scope>, b: seq<Stmt>, taken: seq<Name>, c: nat, id: nat)
    requires |scopes| > 1 && Has(scopes, taken, c) && Snug(b, taken, id) && CountLocals(b) > 0
    ensures UsesWord(BlockLog(scopes, b, id), c + CountLocals(b) - 1)
    decreases b, 0
  {
    hide Has, UsesWord, RegisterAll, NamesLog, Words, SnugIn, Distinct;
    hide Loops, Pushed, Entered, NumericNames, StateNames;
    var next := AfterStmt(scopes, b[0]);
    var log, more := StmtLog(scopes, b[0], id), BlockLog(next, b[1..], id + LoopsIn(b[0]));
    match b[0]
    case Local(names) =>
      RegisterNews(scopes, taken, c, names);
      if CountLocals(b[1..]) > 0 {
        SnugUses(next, b[1..], taken + names, c + |names|, id);
      } else {
        WordsUse(names, c);
      }
      UsesEither(log, more, c + CountLocals(b) - 1);
    case FunctionDef(_, _, _) =>
      SnugUses(scopes, b[1..], taken, c, id + LoopsIn(b[0]));
      UsesEither(log, more, c + CountLocals(b) - 1);
    case Other =>
      SnugUses(scopes, b[1..], taken, c, id);
      UsesEither(log, more, c + CountLocals(b) - 1);
    case s =>
      assert CountLocals(b[1..]) == 0;
      SnugUsesIn(scopes, s, taken, c, id);
      UsesEither(log, more, c + CountLocals(b) - 1);
  }

  lemma {:induction false} SnugUsesIn(scopes: seq<Scope>, s: Stmt, taken: seq<Name>, c: nat, id: nat)
    requires |scopes| > 1 && Has(scopes, taken, c) && SnugIn(s, id) && CountIn(s) > 0
    ensures UsesWord(StmtLog(scopes, s, id), c + CountIn(s) - 1)
    decreases s
  {
    hide Has, UsesWord, RegisterAll, NamesLog, BlockLog, CountLocals, Words, Snug, Pushed;
    PushedHas(scopes, taken, c);
    match s
    case If(t, e) =>
      if CountLocals(t) >= CountLocals(e) {
        SnugUses(Pushed(scopes), t, [], c, id);
      } else {
        SnugUses(Pushed(scopes), e, [], c, id + Loops(t));
      }
      UsesEither(BlockLog(Pushed(scopes), t, id), BlockLog(Pushed(scopes), e, id + Loops(t)), c + CountIn(s) - 1);
    case Do(b) => SnugUses(Pushed(scopes), b, [], c, id);
    case While(b) => SnugUses(Pushed(scopes), b, [], c, id);
    case Repeat(b) => SnugUses(Pushed(scopes), b, [], c, id);
    case ForNumeric(index, b) =>
      NumericWords(scopes, taken, c, index.name, b, id);
      var names := [Hidden("limit", id), Hidden("step", id), Hidden("ctrl", id), index];
      var inner := RegisterAll(Pushed(scopes), names);
      if CountLocals(b) > 0 {
        SnugUses(inner, b, names, c + 4, id + 1);
      } else {
        WordsUse(names, c);
      }
      UsesEither(Words(names, c), BlockLog(inner, b, id + 1), c + CountIn(s) - 1);
    case ForGeneric(vars, b) =>
      GenericUses(scopes, vars, b, taken, c, id);
  }

  lemma {:induction false} GenericUses(
    scopes: seq<Scope>, vars: seq<Name>, b: seq<Stmt>, taken: seq<Name>, c: nat, id: nat)
    requires |scopes| > 1 && Has(scopes, taken, c) && SnugIn(ForGeneric(vars, b), id)
    ensures UsesWord(StmtLog(scopes, ForGeneric(vars, b), id), c + 3 + |vars| + CountLocals(b) - 1)
    decreases b, 1
  {
    hide Has, UsesWord, RegisterAll, NamesLog, BlockLog, CountLocals, Words, Snug, Pushed;
    GenericWords(scopes, taken, c, vars, b, id);
    var state := [Hidden("iter", id), Hidden("state", id), Hidden("key", id)];
    var inner := RegisterAll(RegisterAll(Pushed(scopes), state), vars);
    var n := c + 3 + |vars| + CountLocals(b) - 1;
    if CountLocals(b) > 0 {
      SnugUses(Pushed(inner), b, [], c + 3 + |vars|, id + 1);
    } else if |vars| > 0 {
      WordsUse(vars, c + 3);
      UsesEither(Words(state, c), Words(vars, c + 3), n);
    } else {
      WordsUse(state, c);
      UsesEither(Words(state, c), Words(vars, c + 3), n);
    }
    UsesEither(Words(state, c) + Words(vars, c + 3), BlockLog(Pushed(inner), b, id + 1), n);
  }

  // ---------------------------------------------------------------------------
  // Nothing is left out
  // ---------------------------------------------------------------------------

  /** The names a block declares, in the order of the program: those of its functions and of all
      branches included. `id` is the number of its first loop. */
  ghost function Declared(b: seq<Stmt>, id: nat): seq<Name>
    decreases b
  {
    if |b| == 0 then [] else DeclaredIn(b[0], id) + Declared(b[1..], id + LoopsIn(b[0]))
  }

  ghost function DeclaredIn(s: Stmt, id: nat): seq<Name>
    decreases s
  {
    match s
    case Local(names) => names
    case If(t, e) => Declared(t, id) + Declared(e, id + Loops(t))
    case ForNumeric(index, b) =>
      [Hidden("limit", id), Hidden("step", id), Hidden("ctrl", id), index] + Declared(b, id + 1)
    case ForGeneric(vars, b) =>
      [Hidden("iter", id), Hidden("state", id), Hidden("key", id)] + vars + Declared(b, id + 1)
    case Do(b) => Declared(b, id)
    case While(b) => Declared(b, id)
    case Repeat(b) => Declared(b, id)
    case FunctionDef(_, _, b) => Declared(b, id)
    case Other => []
  }

  /** The names registered, those in nested functions included. */
  ghost function NamesOf(log: seq<Event>): seq<Name>
    decreases log
  {
    if |log| == 0 then []
    else
      match log[0]
      case Placed(symbol) => [symbol.name] + NamesOf(log[1..])
      case Function(_, inner) => NamesOf(inner) + NamesOf(log[1..])
  }

  lemma {:induction false} NamesTwo(a: seq<Event>, b: seq<Event>)
    ensures NamesOf(a + b) == NamesOf(a) + NamesOf(b)
    decreases |a|
  {
    if |a| == 0 {
      assert a + b == b && NamesOf(a) + NamesOf(b) == NamesOf(b);
    } else {
      assert (a + b)[1..] == a[1..] + b;
      NamesTwo(a[1..], b);
      var first := if a[0].Placed? then [a[0].symbol.name] else NamesOf(a[0].inner);
      assert first + (NamesOf(a[1..]) + NamesOf(b)) == first + NamesOf(a[1..]) + NamesOf(b);
    }
  }

  lemma {:induction false} NamesRegistered(scopes: seq<Scope>, names: seq<Name>)
    requires |scopes| > 0
    ensures NamesOf(NamesLog(scopes, names)) == names
    decreases |names|
  {
    if |names| > 0 {
      hide Register;
      NamesRegistered(Register(scopes, names[0]), names[1..]);
      var first, more := [Placed(Registered(scopes, names[0]))], NamesLog(Register(scopes, names[0]), names[1..]);
      assert (first + more)[1..] == more && (first + more)[0] == first[0];
      assert [names[0]] + names[1..] == names;
    }
  }

  /** Every name of every statement is registered, in order. */
  lemma {:induction false} AllRegistered(scopes: seq<Scope>, b: seq<Stmt>, id: nat)
    requires |scopes| > 0
    ensures NamesOf(BlockLog(scopes, b, id)) == Declared(b, id)
    decreases b, 0
  {
    hide NamesOf, StmtLog, DeclaredIn, RegisterAll, LoopsIn;
    if |b| == 0 {
      NoNames();
    } else {
      var next := AfterStmt(scopes, b[0]);
      AllOfStmt(scopes, b[0], id);
      AllRegistered(next, b[1..], id + LoopsIn(b[0]));
      NamesTwo(StmtLog(scopes, b[0], id), BlockLog(next, b[1..], id + LoopsIn(b[0])));
    }
  }

  lemma {:induction false} NoNames()
    ensures NamesOf([]) == []
  {}

  lemma {:induction false} AllOfStmt(scopes: seq<Scope>, s: Stmt, id: nat)
    requires |scopes| > 0
    ensures NamesOf(StmtLog(scopes, s, id)) == DeclaredIn(s, id)
    decreases s
  {
    hide NamesOf, BlockLog, Declared, RegisterAll, NamesLog, Pushed, Entered, Loops, CountLocals;
    match s
    case Local(names) => NamesRegistered(scopes, names);
    case If(t, e) =>
      AllRegistered(Pushed(scopes), t, id);
      AllRegistered(Pushed(scopes), e, id + Loops(t));
      NamesTwo(BlockLog(Pushed(scopes), t, id), BlockLog(Pushed(scopes), e, id + Loops(t)));
    case Do(b) => AllRegistered(Pushed(scopes), b, id);
    case While(b) => AllRegistered(Pushed(scopes), b, id);
    case Repeat(b) => AllRegistered(Pushed(scopes), b, id);
    case ForNumeric(index, b) =>
      var names := [Hidden("limit", id), Hidden("step", id), Hidden("ctrl", id), index];
      var inner := RegisterAll(Pushed(scopes), names);
      NamesRegistered(Pushed(scopes), names);
      AllRegistered(inner, b, id + 1);
      NamesTwo(NamesLog(Pushed(scopes), names), BlockLog(inner, b, id + 1));
    case ForGeneric(vars, b) =>
      AllOfGeneric(scopes, vars, b, id);
    case FunctionDef(upvalues, params, b) =>
      AllRegistered(Entered(scopes, upvalues, params), b, id);
      OneFunction(CountLocals(b), BlockLog(Entered(scopes, upvalues, params), b, id));
    case Other =>
      NoNames();
  }

  lemma {:induction false} AllOfGeneric(scopes: seq<Scope>, vars: seq<Name>, b: seq<Stmt>, id: nat)
    requires |scopes| > 0
    ensures NamesOf(StmtLog(scopes, ForGeneric(vars, b), id)) == DeclaredIn(ForGeneric(vars, b), id)
    decreases b, 1
  {
    hide NamesOf, BlockLog, Declared, RegisterAll, NamesLog, Pushed;
    var state := [Hidden("iter", id), Hidden("state", id), Hidden("key", id)];
    var p := Pushed(scopes);
    var inner := RegisterAll(p, state);
    var body := Pushed(RegisterAll(inner, vars));
    NamesRegistered(p, state);
    NamesRegistered(inner, vars);
    AllRegistered(body, b, id + 1);
    NamesTwo(NamesLog(p, state), NamesLog(inner, vars));
    NamesTwo(NamesLog(p, state) + NamesLog(inner, vars), BlockLog(body, b, id + 1));
  }

  lemma {:induction false} OneFunction(n: nat, inner: seq<Event>)
    ensures NamesOf([Function(n, inner)]) == NamesOf(inner)
  {
    assert [Function(n, inner)][1..] == [];
    assert NamesOf(inner) + [] == NamesOf(inner);
  }

  /** A name means its first declaration in a scope. */
  lemma {:induction false} LookupFirst(symbols: seq<Symbol>, name: Name, i: nat)
    requires i < |symbols| && symbols[i].name == name && forall k :: 0 <= k < i ==> symbols[k].name != name
    ensures Lookup(symbols, name) == Some(symbols[i])
    decreases i
  {
    if i > 0 {
      LookupFirst(symbols[1..], name, i - 1);
    }
  }
}
