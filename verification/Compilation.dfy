/** From a program to its circuit: the rows emitted for what a symbolic run leaves are satisfied exactly for the inputs
    on which the program returns. */
module Compilation {
  import opened Words
  import opened Fields
  import opened Linear
  import opened Circuits
  import opened Solving
  import opened Nums
  import opened Integers
  import opened Wires
  import opened Requirements
  import opened SymValues
  import opened SymMemory
  import opened Lowering
  import opened Wasm
  import opened Simulation
  import opened Accesses
  import opened Execution
  import opened Control
  import M = Machine

  /** Some input wires' nums. */
  ghost predicate InputNums(p: Prime, c: Circuit, syms: seq<Sym>, inputs: map<nat, Num>)
    requires Indexed(c)
  {
    forall i :: i in inputs ==> IsInput(syms, i) && OkNum(p, c, inputs[i], syms[i].width)
  }

  predicate AllGiven(syms: seq<Sym>, inputs: map<nat, Num>) {
    forall i :: 1 <= i < |syms| && IsInput(syms, i) ==> i in inputs
  }

  lemma InputsOk(p: Prime, c: Circuit, syms: seq<Sym>, more: seq<Sym>, inputs: map<nat, Num>)
    requires Indexed(c) && InputNums(p, c, syms, inputs) && syms <= more && AllGiven(more, inputs)
    ensures OkInputs(p, c, more, inputs)
  {
    hide OkNum;
    forall i | 1 <= i < |more| && IsInput(more, i)
      ensures i in inputs && OkNum(p, c, inputs[i], more[i].width)
    {
      assert more[i] == syms[i];
    }
  }

  /** The program started in `p` returns on `inp` in the state `q` stands for, and strays nowhere. */
  ghost predicate Accepts(step: Stepper, p: View, q: View, inp: Inputs) {
    Returns(step, Conc(p, inp), Conc(q, inp)) && !StraysIn(q.log, inp)
  }

  /**
   * At `s`, whose inputs are `inp`: the rows since `c` hold exactly at the hinted values where the program accepts the
   * inputs, every symbol then has its worth, and where it does accept them there are such values.
   */
  ghost predicate Compiles(prime: Prime, c: Circuit, d: Circuit, step: Stepper, p: View, q: View, nums: seq<Num>,
                           s: Assignment, inp: Inputs)
    requires Indexed(c) && Indexed(d) && |nums| <= |q.syms|
  {
    && AddsAt(prime, c, d, s, Accepts(step, p, q, inp))
    && (Meets(prime, d, s) ==> Worths(prime, q.syms, nums, s, inp))
    && (Meets(prime, c, s) && Accepts(step, p, q, inp) ==> Completes(prime, c, d, s))
  }

  /** The program accepts the inputs of no solution. */
  ghost predicate NeverAccepts(prime: Prime, c: Circuit, inputs: map<nat, Num>, step: Stepper, p: View, q: View)
    requires Indexed(c)
  {
    forall s: Assignment, inp :: Meets(prime, c, s) && InputsAgree(prime, q.syms, inputs, s, inp) ==>
      !Accepts(step, p, q, inp)
  }

  /** What the run left can be put into rows: its symbols and requirements are of the kinds that have them, and every
      input wire has a num. */
  predicate Lowerable(syms: seq<Sym>, inputs: map<nat, Num>, reqs: seq<Req>) {
    Table(syms) && AllGiven(syms, inputs) && forall i :: 0 <= i < |reqs| ==> ReqLowers(syms, reqs[i])
  }

  /**
   * Compile `code` from the state `st`: run it symbolically, then emit rows for the symbols and requirements it left.
   * An earlier solution then extends to one of them, in one way, exactly where the program returns on its inputs
   * without straying. `None` only if the run does not end, its symbols or requirements are of other kinds, or the
   * program accepts the inputs of no solution. A run that does not end either panics on every input, or gave up for a
   * cause.
   */
  method Compile(code: seq<Op>, memory: Memory, host: Host, index: M.Indexer, st: State<V>, maxSteps: nat,
                 maxProbe: nat, maxDepth: nat, ints: Integers, inputs: map<nat, Num>)
    returns (r: Status, m: M.Machine, nums: Option<seq<Num>>)
    requires host.memory == memory && host.Valid() && OkState(st, memory.syms) && M.Sound(index)
    requires host.guards == [] && !host.probing && host.reqs == []
    requires ints.Valid() && ints.arms == [] && InputNums(ints.b.p, ints.b.Snap(), memory.syms, inputs)
    modifies host, memory, ints, ints.b
    ensures m.Valid() && m.code == code && m.memory == memory && m.host == host && ints.Valid()
    ensures nums.Some? ==> r.Ok? && |nums.value| == |memory.syms|
    ensures var p := View(At(st, old(memory.Cells())), old(memory.syms), [], []);
      nums.Some? ==> forall s: Assignment, inp :: InputsAgree(ints.b.p, memory.syms, inputs, s, inp) ==>
        && Compiles(ints.b.p, old(ints.b.Snap()), ints.b.Snap(), Steps(code), p, m.Here(), nums.value, s, inp)
        && (NoneStrays(index, m.log) ==> !StraysIn(m.log, inp))
    ensures var p := View(At(st, old(memory.Cells())), old(memory.syms), [], []);
      nums.None? && r.Ok? && Lowerable(memory.syms, inputs, host.reqs) ==>
        NeverAccepts(ints.b.p, old(ints.b.Snap()), inputs, Steps(code), p, m.Here())
    ensures r.Failed? ==> m.Excused([])
    ensures var p := View(At(st, old(memory.Cells())), old(memory.syms), [], []);
      && m.from == OutlineOf(st) && m.index == index && m.maxSteps == maxSteps && m.maxDepth == maxDepth
      && (forall inp :: m.start(inp) == Conc(p, inp))
      && (r.Diverged? ==> forall inp :: Panics(Steps(code), Conc(p, inp)) || StraysIn(m.log, inp))
  {
    hide Ordered, Indexed, Meets, Hinted, IsPrime, Value, Extends, OkNum, NumVal, InputNums, Valuation, AllBind, Table,
      InputsAgree, Worths, StraysIn, Returns, Panics, Conc, M.Sound, OkSyms, OkCells, Logged, Accounted, NoneStrays,
      AllGiven, ReqLowers, Accepts, Compiles, Hopeless, Lowers, Asked, Faithful;
    ghost var p := View(At(st, memory.Cells()), memory.syms, [], []);
    ghost var c := ints.b.Snap();
    r, m := Execute(code, memory, host, index, st, maxSteps, maxProbe, maxDepth);
    nums := None;
    NothingAsked(p);
    if !r.Ok? || !Lowerable(memory.syms, inputs, host.reqs) {
      return;
    }
    InputsOk(ints.b.p, c, p.syms, memory.syms, inputs);
    nums := LowerCircuit(ints, memory.syms, inputs, host.reqs);
    AllAsked(memory);
    forall s: Assignment, inp | InputsAgree(ints.b.p, memory.syms, inputs, s, inp)
      ensures nums.Some? ==>
        Compiles(ints.b.p, c, ints.b.Snap(), Steps(code), p, m.Here(), nums.value, s, inp)
      ensures nums.None? && Meets(ints.b.p, c, s) ==> !Accepts(Steps(code), p, m.Here(), inp)
    {
      AcceptedBinds(Steps(code), p, m.Here(), inp);
      AskedNeverByZero(memory.divs, memory.syms, host.reqs, inp);
      if nums.Some? {
        LoweredCompiles(ints.b.p, c, ints.b.Snap(), Steps(code), p, m.Here(), nums.value, s, inp);
      } else {
        HopelessAt(ints.b.p, c, memory.syms, inputs, s, inp);
      }
    }
  }

  lemma NothingAsked(p: View)
    requires p.reqs == []
    ensures forall inp :: OnPath([], p.reqs, p.syms, inp)
  {
  }

  /** Every division of the table is known to the memory. */
  lemma AllAsked(memory: Memory)
    requires memory.Valid()
    ensures forall i :: 0 <= i < |memory.syms| && IsDivision(memory.syms[i]) ==> i in memory.divs
  {
  }

  lemma AcceptedBinds(step: Stepper, p: View, q: View, inp: Inputs)
    requires Faithful(step, p, q) && p.reqs == []
    ensures AllBind(q.reqs, 0, Valuation(q.syms, inp)) <==> Accepts(step, p, q, inp)
  {
    hide Returns, Panics, StraysIn, Conc, Valuation;
    NothingAsked(p);
  }

  /** Where the requirements hold, no division is by zero in the arms it is made in. */
  lemma AskedNeverByZero(divs: set<nat>, syms: seq<Sym>, reqs: seq<Req>, inp: Inputs)
    requires Asked(divs, syms, reqs) && forall i :: 0 <= i < |syms| && IsDivision(syms[i]) ==> i in divs
    ensures AllBind(reqs, 0, Valuation(syms, inp)) ==> NeverByZero(syms, |syms|, inp)
  {
    hide Valuation;
    var vals := Valuation(syms, inp);
    if AllBind(reqs, 0, vals) {
      forall i | 1 <= i < |syms| && IsDivision(syms[i])
        ensures Taken(syms[i].def.guards, vals) ==> Val(vals, syms[i].def.b) != 0
      {
        var def := syms[i].def;
        assert DivisorAsked(def, reqs);
        if def.b.IsSym() {
          var k :| 0 <= k < |reqs| && reqs[k] == Req(def.guards, def.b, true);
          assert Binds(reqs[k], vals);
        }
      }
    }
  }

  lemma HopelessAt(prime: Prime, c: Circuit, syms: seq<Sym>, inputs: map<nat, Num>, s: Assignment, inp: Inputs)
    requires Indexed(c) && Hopeless(prime, c, syms, inputs) && InputsAgree(prime, syms, inputs, s, inp)
    ensures Meets(prime, c, s) ==> !NeverByZero(syms, |syms|, inp)
  {
    hide Indexed, Meets, InputsAgree, NeverByZero;
  }

  /** The circuit of a faithful run's symbols and requirements. */
  lemma LoweredCompiles(prime: Prime, c: Circuit, d: Circuit, step: Stepper, p: View, q: View, nums: seq<Num>,
                        s: Assignment, inp: Inputs)
    requires Indexed(c) && Indexed(d) && |nums| == |q.syms| && Lowers(prime, c, d, q.syms, nums, q.reqs, s, inp)
    requires AllBind(q.reqs, 0, Valuation(q.syms, inp)) <==> Accepts(step, p, q, inp)
    requires AllBind(q.reqs, 0, Valuation(q.syms, inp)) ==> NeverByZero(q.syms, |q.syms|, inp)
    ensures Compiles(prime, c, d, step, p, q, nums, s, inp)
  {
    hide Indexed, Meets, Hinted, Accepts, Valuation, AllBind, NeverByZero, Worths, Completes;
  }
}
