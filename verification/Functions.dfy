/**
 * Valid functions, run symbolically once flattened: their requirements are met by exactly the inputs on which the
 * structured function ends without straying, and the machine gives up only for what it does not support.
 */
module Functions {
  import opened Words
  import opened SymValues
  import opened SymMemory
  import opened Lowering
  import opened Simulation
  import opened Control
  import opened Validation
  import opened Layout
  import opened Execution
  import W = Wasm
  import M = Machine
  import P = Pointers
  import T = Structured

  /** A comparison, load or store that is not supported, or a loop that goes on on a symbol. */
  ghost predicate Unsupported(code: seq<W.Op>, st: W.State<V>, syms: seq<Sym>, index: M.Indexer) {
    && st.pc < |code| && |st.stack| >= W.Operands(code[st.pc])
    && var k := |st.stack|;
      match code[st.pc]
      case Cmpop(c) =>
        Narrow(syms, st.stack[k - 2]) && Narrow(syms, st.Top()) ==> !Compares(syms, c, st.stack[k - 2], st.Top())
      case Load(_, _) => !P.LeavesLoad(syms, index(syms), false, st.Top())
      case Store(_, _) => !P.Stores(syms, index(syms), false, st.stack[k - 2])
      case BrIf(depth) => st.Top().IsSym() && M.LoopLabel(st.ctl, depth)
      case _ => false
  }

  /** What fits its instruction makes the machine give up only where that is not supported. */
  lemma FitsSupported(code: seq<W.Op>, st: W.State<V>, syms: seq<Sym>, index: M.Indexer)
    requires Fits(code, OutlineOf(st)) && M.GivesUpAt(code, st, syms, index, false)
    ensures Unsupported(code, st, syms, index)
  {
    var op := code[st.pc];
    if op.BrIf? {
      PopOutline(st, 1);
      JumpOutline(|code|, st.Pop(1), op.depth);
    } else if W.Moves(op) {
      ShapeOutline(|code|, op, st);
    }
  }

  /** Why the machine gave up on a valid function. */
  ghost predicate Limits(m: M.Machine)
    reads m
  {
    match m.cause
    case Nothing => false
    case Spent => m.steps > m.maxSteps
    case Ended(_, _) => false
    case Stops(path, p) => m.ComesBy(path, p) && p.from.At? && Unsupported(m.code, p.from.st, p.syms, m.index)
    case Deep(path, p) =>
      && |path| >= m.maxDepth && m.ComesBy(path, p) && p.from.Either?
      && Branches(m.code, m.from, OutlineOf(p.from.t), OutlineOf(p.from.e))
    case Apart(path, p) =>
      && m.ComesBy(path, p) && p.from.Either? && p.from.t.ctl == p.from.e.ctl
      && Back(OutlineOf(p.from.t)) != Back(OutlineOf(p.from.e))
  }

  lemma CauseIsLimit(m: M.Machine, f: T.Func, scope: Scope, path: seq<Lit>)
    requires m.Excused(path) && m.code == T.Flatten(f) && Valid(f, scope) && Starts(f, scope, m.from)
    ensures Limits(m)
  {
    hide Left, T.Flatten, Starts, Valid, Led, Fits, M.GivesUpAt, Unsupported, Found, Legit;
    match m.cause {
      case Stops(_, p) =>
        AlwaysFits(f, scope, m.from, OutlineOf(p.from.st));
        FitsSupported(m.code, p.from.st, p.syms, m.index);
      case Apart(_, p) => PartedIff(f, scope, m.from, OutlineOf(p.from.t), OutlineOf(p.from.e));
      case _ =>
    }
  }

  // ----- symbolic runs of functions -----

  /** What a function starts with on an input. */
  ghost function EnvAt(p: View, inp: Inputs): T.Env
    requires p.from.At?
  {
    var vals := Valuation(p.syms, inp);
    T.Env(ConcVals(vals, p.from.st.locals), ConcVals(vals, p.from.st.globals), CellVals(vals, p.from.cells))
  }

  /** For inputs that meet the requirements of `p`: those of `q` are met exactly where the function ends without
      straying, and then in what `q` stands for; they fail exactly where it traps or strays. */
  ghost predicate EndsAsRun(f: T.Func, p: View, q: View)
    requires p.from.At?
  {
    forall inp :: OnPath([], p.reqs, p.syms, inp) ==>
      var met := AllBind(q.reqs, |p.reqs|, Valuation(q.syms, inp));
      && (met <==> EndsIn(f, EnvAt(p, inp), Conc(q, inp)) && !StraysIn(q.log, inp))
      && (!met <==> T.EndsInTrap(f, EnvAt(p, inp)) || StraysIn(q.log, inp))
  }

  ghost predicate EndsIn(f: T.Func, env: T.Env, d: W.Config) {
    exists vals, env' :: T.Ends(f, env, vals, env') && d == T.Returned(f, vals, env')
  }

  lemma FaithfulEnds(f: T.Func, scope: Scope, p: View, q: View)
    requires Faithful(W.Steps(T.Flatten(f)), p, q) && Valid(f, scope) && p.from.At?
    requires Starts(f, scope, OutlineOf(p.from.st))
    ensures EndsAsRun(f, p, q)
  {
    hide T.Flatten, OnPath, AllBind, StraysIn, T.Ends, T.EndsInTrap, W.Returns, W.Panics, Valid, EndsIn, Valuation;
    forall inp | OnPath([], p.reqs, p.syms, inp)
      ensures var met := AllBind(q.reqs, |p.reqs|, Valuation(q.syms, inp));
        && (met <==> EndsIn(f, EnvAt(p, inp), Conc(q, inp)) && !StraysIn(q.log, inp))
        && (!met <==> T.EndsInTrap(f, EnvAt(p, inp)) || StraysIn(q.log, inp))
    {
      StartsThere(f, scope, p, inp);
      RunIsCall(f, scope, EnvAt(p, inp), Conc(q, inp));
    }
  }

  lemma StartsThere(f: T.Func, scope: Scope, p: View, inp: Inputs)
    requires p.from.At? && Starts(f, scope, OutlineOf(p.from.st))
    ensures Conc(p, inp) == T.Start(f, EnvAt(p, inp)) && In(EnvAt(p, inp), scope)
  {
    assert |p.from.st.stack| == |OutlineOf(p.from.st).stack| == 0;
    assert |p.from.st.locals| == |OutlineOf(p.from.st).locals|;
    assert |p.from.st.globals| == |OutlineOf(p.from.st).globals|;
  }

  lemma RunIsCall(f: T.Func, scope: Scope, env: T.Env, d: W.Config)
    requires Valid(f, scope) && In(env, scope)
    ensures W.Returns(W.Steps(T.Flatten(f)), T.Start(f, env), d) <==> EndsIn(f, env, d)
    ensures W.Panics(W.Steps(T.Flatten(f)), T.Start(f, env)) <==> T.EndsInTrap(f, env)
  {
    hide T.Flatten, T.Ends, T.EndsInTrap, W.Returns, W.Panics, Valid, T.NeverStuck, T.Start;
    ValidNeverStuck(f, env, scope);
    T.FlatIsStructured(f, env, d);
  }

  /**
   * Compile a valid function. If the run ends, its requirements say exactly where the function ends; if it does not,
   * the function traps or strays on every input, or comes to what the machine does not support or its budgets allow.
   */
  method ExecuteFunction(f: T.Func, scope: Scope, memory: Memory, host: Host, index: M.Indexer, locals: seq<V>,
                         globals: seq<V>, maxSteps: nat, maxProbe: nat, maxDepth: nat)
    returns (r: Status, m: M.Machine)
    requires Valid(f, scope) && |locals| == scope.locals && |globals| == scope.globals
    requires host.memory == memory && host.Valid() && OkVs(locals, memory.syms) && OkVs(globals, memory.syms)
    requires M.Sound(index) && host.guards == [] && !host.probing
    modifies host, memory
    ensures fresh(m) && m.Valid() && m.code == T.Flatten(f) && m.memory == memory && m.host == host
    ensures m.maxSteps == maxSteps && m.maxDepth == maxDepth && m.index == index
    ensures var st := W.State(0, [], locals, globals, [W.Ctl(T.Length(f.body), false, 0, f.results)]);
      var p := View(At(st, old(memory.Cells())), old(memory.syms), old(host.reqs), []);
      && (r.Ok? ==> EndsAsRun(f, p, m.Here()))
      && (r.Diverged? ==> forall inp :: OnPath([], p.reqs, p.syms, inp) ==>
        T.EndsInTrap(f, EnvAt(p, inp)) || StraysIn(m.log, inp))
      && (r.Failed? ==> Limits(m))
  {
    hide T.Flatten, Valid, OnPath, StraysIn, Faithful, EndsAsRun, Limits, Accounted, NoneStrays, M.Sound, W.Panics,
      T.EndsInTrap, AllBind, Exact, Conc;
    var code := T.Flatten(f);
    var st := W.State(0, [], locals, globals, [W.Ctl(T.Length(f.body), false, 0, f.results)]);
    ghost var p := View(At(st, memory.Cells()), memory.syms, host.reqs, []);
    r, m := Execute(code, memory, host, index, st, maxSteps, maxProbe, maxDepth);
    BlankIs([]);
    if r.Ok? {
      FaithfulEnds(f, scope, p, m.Here());
    } else if r.Diverged? {
      forall inp | OnPath([], p.reqs, p.syms, inp)
        ensures T.EndsInTrap(f, EnvAt(p, inp)) || StraysIn(m.log, inp)
      {
        StartsThere(f, scope, p, inp);
        RunIsCall(f, scope, EnvAt(p, inp), Conc(p, inp));
      }
    } else {
      CauseIsLimit(m, f, scope, []);
    }
  }
}
