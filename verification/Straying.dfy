/** A run that strays: a program that returns although the requirements made of its one load say it must not. */
module Straying {
  import opened Words
  import opened SymValues
  import opened SymMemory
  import opened Lowering
  import opened Wasm
  import opened Simulation
  import opened Instructions
  import opened Accesses
  import opened Control
  import opened Machine
  import P = Pointers

  /** Read the word at the pointer on the stack, and return it. */
  const StrictCode: seq<Op> := [Load(W32, 0), End]

  /** The pointer is `c ? 0 : 100·x`, the fourth symbol of `Pointers.StrictSyms`. */
  const StrictState: State<V> := State(0, [V(0, 4)], [], [], [Ctl(2, false, 0, 1)])

  /** The forms of the one wire whose offsets are known. */
  function StrictIndex(syms: seq<Sym>): P.Forms {
    if P.StrictSyms() <= syms then P.StrictForms() else map[]
  }

  lemma StrictIndexSound()
    ensures Sound(StrictIndex)
  {
    hide P.StrictSyms, P.IsForm;
    P.SelectTooStrict();
    forall syms | OkSyms(syms)
      ensures P.OkForms(syms, StrictIndex(syms)) && SmallForms(StrictIndex(syms))
    {
      if P.StrictSyms() <= syms {
        P.FormsStable(P.StrictSyms(), syms, P.StrictForms());
      }
    }
  }

  /** The program's two steps where the pointer holds 0. */
  lemma StrictSteps(c: Config)
    requires c.st == State(0, [0], [], [], [Ctl(2, false, 0, 1)]) && |c.mem| == 4
    ensures exists d :: Returns(Steps(StrictCode), c, d)
  {
    var c1 := Config(State(1, [FromBytes(c.mem[0..4])], [], [], [Ctl(2, false, 0, 1)]), c.mem);
    var d := Config(State(2, [FromBytes(c.mem[0..4])], [], [], []), c.mem);
    var step := Steps(StrictCode);
    assert CLoad(c, W32, 0) == Next(c1);
    assert step(c) == Next(c1);
    assert step(c1) == Next(d);
    ReachesStep(step, c, c1);
    ReachesStep(step, c1, d);
    ReachesTrans(step, c, c1, d);
    assert Returns(step, c, d);
  }

  method StrictMemory() returns (memory: Memory)
    ensures fresh(memory) && memory.Valid() && memory.syms == P.StrictSyms() && |memory.mem| == 4 && memory.divs == {}
  {
    hide ExactCounts, OkCells;
    memory := new Memory([0, 0, 0, 0]);
    var c := memory.NewSym(Sym.Wire(1, Input(0)));
    var x := memory.NewSym(Sym.Wire(1, Input(1)));
    var y := memory.NewSym(Sym.Wire(32, BinOf(Mul, V(0, 2), C(100))));
    var a := memory.NewSym(Ite(1, C(0), V(0, 3)));
    assert memory.syms == P.StrictSyms();
  }

  /** Build the symbols, and a machine over them. */
  method StrictMachine() returns (m: Machine)
    ensures fresh(m) && fresh(m.host) && fresh(m.memory) && m.Valid()
    ensures m.code == StrictCode && m.index == StrictIndex && m.st == StrictState && m.memory.syms == P.StrictSyms()
    ensures m.host.guards == [] && !m.host.probing && m.host.reqs == [] && m.log == [] && m.owed == iset{}
    ensures |m.memory.mem| == 4 && m.Comes(m.Here())
  {
    hide Valuation, P.StrictSyms, OkSyms, OkCells, Narrow, P.OkForms, ExactCounts;
    StrictIndexSound();
    var memory := StrictMemory();
    P.SelectTooStrict();
    assert OkState(StrictState, memory.syms);
    var host := new Host(memory);
    m := new Machine(StrictCode, memory, host, StrictIndex, StrictState, 2, 0, 0);
  }

  /** On `c = x = 1` the pointer holds 0, and the arm that is not taken 100. */
  lemma StrictStrays(p: View)
    requires p.from.At? && p.from.st == StrictState && p.syms == P.StrictSyms() && p.reqs == [] && |p.from.cells| == 4
    ensures StraysAt(LoadOf([], p, W32, 0), [1, 1])
    ensures ConcAccess(LoadOf([], p, W32, 0), [1, 1]).st == State(0, [0], [], [], [Ctl(2, false, 0, 1)])
    ensures |ConcAccess(LoadOf([], p, W32, 0), [1, 1]).mem| == 4
  {
    hide Valuation, P.StrictSyms, P.LeavesInBounds;
    P.SelectTooStrict();
    assert P.Held(p.syms, V(0, 4), 0, [1, 1]) == 0;
  }

  /**
   * The machine accepts the load, and the input `c = x = 1` then fails a requirement: it strays at the one access
   * logged. But the program returns on it.
   */
  method StrictRun() returns (m: Machine)
    ensures m.Valid() && m.code == StrictCode && |m.log| == 1
    ensures var inp := [1, 1];
      && StraysAt(m.log[0], inp) && !AllBind(m.host.reqs, 0, Valuation(m.memory.syms, inp))
      && exists d :: Returns(Steps(StrictCode), ConcAccess(m.log[0], inp), d)
  {
    hide Valuation, Sound, OkSyms, P.StrictSyms, P.StrictForms, P.LeavesHaveSlots, P.LeavesLoad, Narrow, P.OkForms,
      OkLog, Found, StraysAt, ConcAccess, Advances, Keeps, Onward, Led, OutlineOf, OkCells, ExactCounts, CellsOf,
      OkReqs, OkGuards, OkVs;
    ghost var inp := [1, 1];
    m := StrictMachine();
    P.SelectTooStrict();
    ghost var (p, path) := (m.Here(), m.Path());
    assert path == [];
    var r := m.StepLoad(W32, 0);
    assert m.log[0] == LoadOf([], p, W32, 0);
    StrictStrays(p);
    StrictSteps(ConcAccess(m.log[0], inp));
  }
}
