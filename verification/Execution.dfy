/** A whole symbolic run: the requirements it leaves are exactly the inputs on which the program returns. */
module Execution {
  import opened SymValues
  import opened SymMemory
  import opened Lowering
  import opened Wasm
  import opened Simulation
  import opened Accesses
  import opened Control
  import opened Machine
  import P = Pointers

  /**
   * For inputs that meet the requirements of `p`, the requirements made since are met by exactly the inputs on which
   * the program started in `p` returns, in the state `q` stands for, and strays at no access; on the others it panics,
   * or strays.
   */
  ghost predicate Faithful(step: Stepper, p: View, q: View) {
    forall inp :: OnPath([], p.reqs, p.syms, inp) ==>
      var met := AllBind(q.reqs, |p.reqs|, Valuation(q.syms, inp));
      && (met <==> Returns(step, Conc(p, inp), Conc(q, inp)) && !StraysIn(q.log, inp))
      && (!met <==> Panics(step, Conc(p, inp)) || StraysIn(q.log, inp))
  }

  /** The requirements are met by exactly the inputs on which the program returns; on the others it panics. */
  ghost predicate Exact(step: Stepper, p: View, q: View) {
    forall inp :: OnPath([], p.reqs, p.syms, inp) ==>
      var met := AllBind(q.reqs, |p.reqs|, Valuation(q.syms, inp));
      && (met <==> Returns(step, Conc(p, inp), Conc(q, inp)))
      && (!met <==> Panics(step, Conc(p, inp)))
  }

  /** Every logged access is a load or store of the program, and an input that strays there comes to it from `p`,
      finds the address in bounds and goes on. */
  ghost predicate Accounted(code: seq<Op>, p: View, log: seq<Access>) {
    forall k :: 0 <= k < |log| ==>
      && IsAccess(code, log[k])
      && forall inp :: StraysAt(log[k], inp) ==>
           Reaches(Steps(code), Conc(p, inp), ConcAccess(log[k], inp)) && Steps(code)(ConcAccess(log[k], inp)).Next?
  }

  /** A simulation that ends outside every label is faithful, if every input that strays fails a requirement. */
  lemma SimulationIsFaithful(code: seq<Op>, p: View, q: View)
    requires RunsTo(Steps(code), [], p, q) && q.from.At? && q.from.st.ctl == []
    requires Owes(q.log, iset{}, q.syms, q.reqs) && OkView(p)
    ensures Faithful(Steps(code), p, q)
  {
    hide OnPath, StraysAt, AllBind;
    forall inp | OnPath([], p.reqs, p.syms, inp)
      ensures var met := AllBind(q.reqs, |p.reqs|, Valuation(q.syms, inp));
        && (met <==> Returns(Steps(code), Conc(p, inp), Conc(q, inp)) && !StraysIn(q.log, inp))
        && (!met <==> Panics(Steps(code), Conc(p, inp)) || StraysIn(q.log, inp))
    {
      var (c, d) := (Conc(p, inp), Conc(q, inp));
      OnPathBack([], p, q, inp);
      PathBinds(q, inp);
      assert Steps(code)(d) == Stuck;
      if Returns(Steps(code), c, d) {
        ReturnsOrPanics(Steps(code), c, d);
      }
    }
  }

  lemma PathBinds(q: View, inp: Inputs)
    ensures OnPath([], q.reqs, q.syms, inp) <==> AllBind(q.reqs, 0, Valuation(q.syms, inp))
  {
  }

  /** A faithful run is exact if and only if the program panics on every input that strays. */
  lemma ExactIffStraysPanic(step: Stepper, p: View, q: View)
    requires Faithful(step, p, q) && forall inp :: step(Conc(q, inp)) == Stuck
    ensures Exact(step, p, q) <==>
      forall inp :: OnPath([], p.reqs, p.syms, inp) && StraysIn(q.log, inp) ==> Panics(step, Conc(p, inp))
  {
    hide OnPath, StraysIn, AllBind, Returns, Panics, Conc, Valuation;
    forall inp | OnPath([], p.reqs, p.syms, inp) && Returns(step, Conc(p, inp), Conc(q, inp))
      ensures !Panics(step, Conc(p, inp))
    {
      ReturnsOrPanics(step, Conc(p, inp), Conc(q, inp));
    }
  }

  /** An input that strays fails a requirement: where the program then returns, requirements and program disagree. */
  lemma StrayingBreaks(step: Stepper, p: View, q: View, inp: Inputs)
    requires Faithful(step, p, q) && OnPath([], p.reqs, p.syms, inp)
    requires StraysIn(q.log, inp) && Returns(step, Conc(p, inp), Conc(q, inp))
    ensures !AllBind(q.reqs, |p.reqs|, Valuation(q.syms, inp)) && !Panics(step, Conc(p, inp)) && !Exact(step, p, q)
  {
    ReturnsOrPanics(step, Conc(p, inp), Conc(q, inp));
    assert Faithful(step, p, q);
  }

  /** Where every logged pointer is no select, or has all slots of all its leaves in bounds, no input strays. */
  ghost predicate NoneStrays(index: Indexer, log: seq<Access>) {
    forall k :: 0 <= k < |log| ==> PointerSafe(index, log[k])
  }

  ghost predicate PointerSafe(index: Indexer, e: Access) {
    || !P.Selects(e.syms, e.a)
    || (e.store && !P.ConcreteSelect(e.syms, e.a))
    || (&& P.AllInBounds(e.syms, index(e.syms), e.a, e.off, e.size, |e.cells|)
        && forall l :: P.IsLeaf(e.syms, e.a, l) && l.s != 0 ==> l.s in index(e.syms))
  }

  lemma SafeNeverStrays(code: seq<Op>, start: Inputs -> Config, index: Indexer, log: seq<Access>, syms: seq<Sym>,
                        reqs: seq<Req>)
    requires OkLog(code, start, log, syms, reqs) && Sound(index) && NoneStrays(index, log)
    ensures forall inp :: !StraysIn(log, inp)
  {
    forall k, inp | 0 <= k < |log|
      ensures !StraysAt(log[k], inp)
    {
      SafeAt(index, log[k], inp);
    }
  }

  lemma SafeAt(index: Indexer, e: Access, inp: Inputs)
    requires OkSyms(e.syms) && Sound(index) && PointerSafe(index, e)
    ensures !StraysAt(e, inp)
  {
    hide P.IsLeaf, P.AllInBounds, OkSyms, P.OkForms;
    SoundAt(index, e.syms);
    if !P.Selects(e.syms, e.a) {
      P.PlainNeverStrays(e.syms, e.a, e.off, e.size, |e.cells|, inp);
    } else if !(e.store && !P.ConcreteSelect(e.syms, e.a)) {
      P.InBoundsNeverStrays(e.syms, index(e.syms), e.a, e.off, e.size, |e.cells|, inp);
    }
  }

  /** What a log keeps, seen from where the program started. */
  lemma LogAccounted(code: seq<Op>, start: Inputs -> Config, p: View, log: seq<Access>, syms: seq<Sym>, reqs: seq<Req>)
    requires OkLog(code, start, log, syms, reqs) && forall inp :: start(inp) == Conc(p, inp)
    ensures Accounted(code, p, log)
  {
    hide Conc, Reaches, OkSyms;
    forall k, inp | 0 <= k < |log| && StraysAt(log[k], inp)
      ensures Reaches(Steps(code), Conc(p, inp), ConcAccess(log[k], inp)) && Steps(code)(ConcAccess(log[k], inp)).Next?
    {
      assert OkAccess(code, start, log[k]);
      StraysOn(code, log[k], inp);
    }
  }

  /** Where an input strays, the concrete access is in bounds. */
  lemma StraysOn(code: seq<Op>, e: Access, inp: Inputs)
    requires IsAccess(code, e) && StraysAt(e, inp)
    ensures Steps(code)(ConcAccess(e, inp)).Next?
  {
    hide OnPath, P.LeavesInBounds, P.ConcreteSelect;
    var c := ConcAccess(e, inp);
    match code[e.st.pc] {
      case Load(w, off) => assert CStep(code, c) == CLoad(c, w, off);
      case Store(w, off) => assert CStep(code, c) == CStore(c, w, off);
    }
  }

  /** A program without loads and stores. */
  predicate NoAccesses(code: seq<Op>) {
    forall i :: 0 <= i < |code| ==> !code[i].Load? && !code[i].Store?
  }

  /**
   * Compile `code` from the state `st`. In a program without loads and stores, or where every pointer is safe, the
   * requirements are exact; otherwise as exact as `Faithful` says.
   */
  method Execute(code: seq<Op>, memory: Memory, host: Host, index: Indexer, st: State<V>, maxSteps: nat, maxProbe: nat,
                 maxDepth: nat)
    returns (r: Status, m: Machine)
    requires host.memory == memory && host.Valid() && OkState(st, memory.syms) && Sound(index)
    requires host.guards == [] && !host.probing
    modifies host, memory
    ensures m.Valid() && m.code == code && m.memory == memory && m.host == host && fresh(m)
      && old(memory.syms) <= memory.syms
    ensures NoneStrays(index, m.log) ==> forall inp :: !StraysIn(m.log, inp)
    ensures var p := View(At(st, old(memory.Cells())), old(memory.syms), old(host.reqs), []);
      && Accounted(code, p, m.log)
      && (NoAccesses(code) ==> NoneStrays(index, m.log))
      && (r.Ok? ==> m.st.ctl == [] && Faithful(Steps(code), p, m.Here()))
      && (r.Ok? && NoneStrays(index, m.log) ==> Exact(Steps(code), p, m.Here()))
      && (r.Diverged? ==> forall inp :: OnPath([], p.reqs, p.syms, inp) ==>
        Panics(Steps(code), Conc(p, inp)) || StraysIn(m.log, inp))
      && (r.Diverged? && NoneStrays(index, m.log) ==> forall inp :: OnPath([], p.reqs, p.syms, inp) ==>
        Panics(Steps(code), Conc(p, inp)))
      && (forall inp :: m.start(inp) == Conc(p, inp))
    ensures m.from == OutlineOf(st) && m.index == index && m.maxSteps == maxSteps && m.maxDepth == maxDepth
    ensures r.Failed? ==> m.Excused([])
  {
    m := new Machine(code, memory, host, index, st, maxSteps, maxProbe, maxDepth);
    ghost var p := m.Here();
    assert m.Path() == [];
    r := m.Run(0);
    assert m.Path() == [];
    LogAccounted(code, m.start, p, m.log, memory.syms, host.reqs);
    assert NoAccesses(code) && m.log != [] ==> IsAccess(code, m.log[0]);
    if NoneStrays(index, m.log) {
      SafeNeverStrays(code, m.start, index, m.log, memory.syms, host.reqs);
    }
    if r.Ok? {
      SimulationIsFaithful(code, p, m.Here());
      if NoneStrays(index, m.log) {
        ExactIffStraysPanic(Steps(code), p, m.Here());
      }
    }
  }
}
