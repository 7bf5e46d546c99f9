/**
 * The symbolic machine: a concrete branch is followed, a branch on a witness is explored both ways. Each
 * arm's writes are recorded and undone, arms that pause at different depths are resumed until they meet,
 * and the two states merge into selects; an arm that can only panic becomes a requirement.
 */
module Machine {
  import opened Words
  import opened SymValues
  import opened SymMemory
  import opened Lowering
  import opened Wasm
  import opened Simulation
  import opened Control
  import opened Instructions
  import opened Accesses
  import opened Forks
  import P = Pointers

  /** The host's index forms of the wires in a symbol table. */
  type Indexer = seq<Sym> -> P.Forms

  /** Every form describes its wire, whatever the inputs. */
  ghost predicate Sound(index: Indexer) {
    forall syms :: OkSyms(syms) ==> P.OkForms(syms, index(syms)) && SmallForms(index(syms))
  }

  ghost predicate SmallForms(forms: P.Forms) {
    forall s :: s in forms ==> forall j :: 0 <= j < |forms[s].offsets| ==> forms[s].offsets[j] < U32
  }

  lemma SoundAt(index: Indexer, syms: seq<Sym>)
    requires Sound(index) && OkSyms(syms)
    ensures P.OkForms(syms, index(syms)) && SmallForms(index(syms))
  {
  }

  /** The machine may give up here: the state does not fit the instruction, which a valid program's always does; a
      comparison, load or store is not supported; or a loop goes on on a symbol. A look-ahead (`blind`) also where
      something is computed of a symbol. */
  ghost predicate GivesUpAt(code: seq<Op>, st: State<V>, syms: seq<Sym>, index: Indexer, blind: bool) {
    st.pc < |code| && |st.stack| >= Operands(code[st.pc]) ==>
      var k := |st.stack|;
      match code[st.pc]
      case Unreachable => false
      case Const(_) => false
      case Eqz => blind && st.Top().IsSym()
      case Binop(_) => blind && (st.stack[k - 2].IsSym() || st.Top().IsSym())
      case Select => blind && SightOf(syms, st.Top()).Blind?
      case Cmpop(c) =>
        if blind then st.stack[k - 2].IsSym() || st.Top().IsSym()
        else Narrow(syms, st.stack[k - 2]) && Narrow(syms, st.Top()) ==>
          !Compares(syms, c, st.stack[k - 2], st.Top())
      case Load(_, _) => !P.LeavesLoad(syms, index(syms), blind, st.Top())
      case Store(_, _) => !P.Stores(syms, index(syms), blind, st.stack[k - 2])
      case If(_, _, params, _) => k < params + 1 || (blind && SightOf(syms, st.Top()).Blind?)
      case BrIf(depth) => BranchGivesUp(|code|, st, depth) || (blind && SightOf(syms, st.Top()).Blind?)
      case op => Shape(|code|, op, st).None?
  }

  ghost predicate BranchGivesUp(n: nat, st: State<V>, depth: nat)
    requires |st.stack| > 0
  {
    if st.Top().IsSym() then Jump(n, st.Pop(1), depth).None? || LoopLabel(st.ctl, depth)
    else st.Top().b != 0 && Jump(n, st.Pop(1), depth).None?
  }

  /** The label `depth` levels out is a loop's. */
  predicate LoopLabel(ctl: seq<Ctl>, depth: nat) {
    depth < |ctl| && ctl[|ctl| - 1 - depth].isLoop
  }

  /** Why the machine gave up: the steps are spent; at an instruction; at a branch that is nested too deep; or because
      two arms did not meet. And a look-ahead, because it came to the end of the program. All but the first with the
      literals of the arms it was in. */
  datatype Cause =
    | Nothing
    | Spent
    | Ended(path: seq<Lit>, at: View)
    | Stops(path: seq<Lit>, at: View)
    | Deep(path: seq<Lit>, at: View)
    | Apart(path: seq<Lit>, at: View)

  /** What a look-ahead ended with: why, and after how many steps of both kinds. */
  datatype Look = Look(cause: Cause, steps: nat, probed: nat)

  class Machine {
    const code: seq<Op>
    const memory: Memory
    const host: Host
    const index: Indexer
    /** Execution budgets: instructions in all, instructions of a look-ahead, nested branches. */
    const maxSteps: nat
    const maxProbe: nat
    const maxDepth: nat
    var st: State<V>
    var steps: nat
    var probeSteps: nat
    var pathDepth: nat
    /** Where the program started. */
    ghost const start: Inputs -> Config
    ghost const from: Outline
    /** The accesses so far, and the inputs that strayed at one of an arm still to be required away. */
    ghost var log: seq<Access>
    ghost var owed: iset<Inputs>
    /** The arms a look-ahead is in. */
    ghost var looking: seq<Lit>
    ghost var cause: Cause

    constructor (code: seq<Op>, memory: Memory, host: Host, index: Indexer, st: State<V>, maxSteps: nat, maxProbe: nat,
                 maxDepth: nat)
      requires host.memory == memory && host.Valid() && OkState(st, memory.syms) && Sound(index)
      requires host.guards == [] && !host.probing
      ensures Valid() && fresh(this) && log == [] && owed == iset{} && Comes(Here()) && from == OutlineOf(st)
      ensures forall inp :: start(inp) == Conc(Here(), inp)
      ensures this.code == code && this.memory == memory && this.host == host && this.index == index && this.st == st
      ensures this.maxSteps == maxSteps && this.maxDepth == maxDepth
    {
      this.code, this.memory, this.host, this.index, this.st := code, memory, host, index, st;
      log, owed, looking, cause := [], iset{}, [], Nothing;
      from := OutlineOf(st);
      ghost var p := View(At(st, memory.Cells()), memory.syms, host.reqs, []);
      start := inp => Conc(p, inp);
      this.maxSteps, this.maxProbe, this.maxDepth := maxSteps, maxProbe, maxDepth;
      steps, probeSteps, pathDepth := 0, 0, 0;
      new;
      LedHere(code, from);
      forall inp
        ensures Reaches(Steps(code), this.start(inp), Conc(Here(), inp))
      {
        ReachesSelf(Steps(code), Conc(p, inp));
      }
    }

    ghost predicate Valid()
      reads this, host, memory
    {
      && host.memory == memory && host.Valid() && OkState(st, memory.syms) && Sound(index)
      && OkGuards(Path(), memory.syms) && (!host.probing ==> looking == [])
      && pathDepth <= |Path()|
      && Logged(code, start, log, owed, memory.syms, host.reqs)
    }

    /** What holds of the inputs that come here: the guards, and the arms looked into. */
    ghost function Path(): seq<Lit>
      reads this`looking, host`guards
    {
      host.guards + looking
    }

    ghost function ViewOf(from: Origin): View
      reads this`log, host, memory
    {
      View(from, memory.syms, host.reqs, log)
    }

    ghost function Here(): View
      reads this, host, memory
    {
      ViewOf(At(st, memory.Cells()))
    }

    /** Instructions lead from the start to `s`, whatever the values are. */
    ghost predicate OnTrack(s: State<V>) {
      Led(code, from, OutlineOf(s))
    }

    ghost predicate Tracked(o: Origin) {
      match o
      case At(s, _) => OnTrack(s)
      case Either(_, t, _, e, _) => OnTrack(t) && OnTrack(e)
    }

    /** Every input on the path comes to `p`. */
    ghost predicate ComesBy(path: seq<Lit>, p: View) {
      Found(Steps(code), start, path, p) && Tracked(p.from)
    }

    ghost predicate Comes(p: View)
      reads this`looking, host`guards
    {
      ComesBy(Path(), p)
    }

    /** `s` was come to by leaving one of `labels`, or going back to one. */
    ghost predicate LeftFrom(labels: seq<Ctl>, s: State<V>) {
      Left(code, from, labels, OutlineOf(s))
    }

    /** The cause given is one, of execution on `path`. */
    ghost predicate Excused(path: seq<Lit>)
      reads this`steps, this`cause
    {
      match cause
      case Nothing => false
      case Spent => steps > maxSteps
      case Ended(_, _) => false
      case Stops(more, p) =>
        && path <= more && ComesBy(more, p) && p.from.At? && p.from.st.ctl != []
        && GivesUpAt(code, p.from.st, p.syms, index, false)
      case Deep(more, p) =>
        && path <= more && ComesBy(more, p) && p.from.Either? && |more| >= maxDepth
        && Branches(code, from, OutlineOf(p.from.t), OutlineOf(p.from.e))
      case Apart(more, p) =>
        && path <= more && ComesBy(more, p) && p.from.Either?
        && Parted(code, from, OutlineOf(p.from.t), OutlineOf(p.from.e))
    }

    /** A look-ahead on `path` learned nothing, for a cause. */
    ghost predicate BlindBy(path: seq<Lit>, look: Look) {
      match look.cause
      case Spent => look.steps > maxSteps || look.probed > maxProbe
      case Stops(more, p) =>
        && path <= more && ComesBy(more, p) && p.from.At? && p.from.st.ctl != []
        && GivesUpAt(code, p.from.st, p.syms, index, true)
      case Ended(more, p) => path <= more && ComesBy(more, p) && p.from.At? && p.from.st.ctl == []
      case _ => false
    }

    ghost predicate Blinded(path: seq<Lit>)
      reads this`steps, this`probeSteps, this`cause
    {
      BlindBy(path, Look(cause, steps, probeSteps))
    }

    lemma EndedBlind(p: View, s0: State<V>, s: State<V>)
      requires cause == Ended(Path(), p) && Found(Steps(code), start, Path(), p) && p.from.At? && p.from.st == s
      requires Down(s0, 0, s)
      ensures Blinded(Path())
    {
      hide Led, Left, Found;
    }

    lemma BlindedBefore(path: seq<Lit>, lit: Lit)
      requires Blinded(path + [lit])
      ensures Blinded(path)
    {
    }

    lemma ExcusedApart(p: View, labels: seq<Ctl>, t: State<V>, e: State<V>)
      requires cause == Apart(Path(), p) && Comes(p) && p.from.Either? && p.from.t == t && p.from.e == e
      requires LeftFrom(labels, t) && LeftFrom(labels, e) && t.ctl == e.ctl
      requires t.pc != e.pc || |t.stack| != |e.stack|
      ensures Excused(Path())
    {
      hide Left, Led, Found;
    }

    lemma SpentUnfinished()
      requires cause == Spent && (steps > maxSteps || (host.probing && probeSteps > maxProbe))
      ensures Unfinished()
    {
    }

    lemma ExcusedBefore(path: seq<Lit>, lit: Lit)
      requires Excused(path + [lit])
      ensures Excused(path)
    {
    }

    /** From `s0`, down to at most `stop` labels. */
    ghost predicate Down(s0: State<V>, stop: nat, s1: State<V>) {
      Lowered(s0, stop, s1) && OnTrack(s1) && (|s0.ctl| > stop ==> LeftFrom(s0.ctl, s1))
    }

    /** An arm under `labels`, on its way down to at most `stop` of them, or already there. */
    ghost predicate Bound(labels: seq<Ctl>, stop: nat, s: State<V>) {
      stop < |labels| && if |s.ctl| > stop then s.ctl[..stop + 1] == labels[..stop + 1] else LeftFrom(labels, s)
    }

    /** The arms that started from `t` and `e` met in `s`, or one of them went on there alone. */
    ghost predicate Met(t: State<V>, e: State<V>, stop: nat, s: State<V>) {
      |s.ctl| <= stop && SameSize(t, s) && LeftFrom(e.ctl, s)
    }

    lemma DownMet(t: State<V>, e: State<V>, stop: nat, live: State<V>, s: State<V>)
      requires Bound(e.ctl, stop, live) && Down(live, stop, s) && SameSize(t, live)
      ensures Met(t, e, stop, s)
    {
      hide Left, Led;
      BoundDown(e.ctl, stop, live, s);
    }

    lemma BoundDown(labels: seq<Ctl>, stop: nat, s0: State<V>, s1: State<V>)
      requires Bound(labels, stop, s0) && Down(s0, stop, s1)
      ensures LeftFrom(labels, s1) && |s1.ctl| <= stop
    {
      if |s0.ctl| > stop {
        var k := |s1.ctl|;
        assert s0.ctl[..k + 1] == s0.ctl[..stop + 1][..k + 1] == labels[..stop + 1][..k + 1] == labels[..k + 1];
        LeftOther(code, from, s0.ctl, labels, OutlineOf(s1));
      }
    }

    /** One instruction went from `s` to `t`. */
    ghost predicate Goes(s: State<V>, t: State<V>) {
      Keeps(s, t) && Onward(code, OutlineOf(s), OutlineOf(t))
    }

    /** An instruction and the arms it opened led from `s` to `t`. */
    ghost predicate Passes(s: State<V>, t: State<V>) {
      Keeps(s, t) && OnTrack(t) && (|t.ctl| < |s.ctl| ==> LeftFrom(s.ctl, t))
    }

    lemma GoesPasses(s: State<V>, t: State<V>)
      requires OnTrack(s) && Goes(s, t)
      ensures Passes(s, t)
    {
      LedOn(code, from, OutlineOf(s), OutlineOf(t));
      if |t.ctl| < |s.ctl| {
        LeftBy(code, from, OutlineOf(s), OutlineOf(t));
      }
    }

    /** What was logged still is as symbols and requirements are added to those of `p`. */
    lemma Grew(p: View)
      requires Logged(code, start, log, owed, p.syms, p.reqs) && OkReqs(p.reqs, p.syms) && OkGuards(Path(), p.syms)
      requires p.syms <= memory.syms && Under(host.guards, p.reqs, host.reqs)
      requires (!host.probing ==> looking == []) && (host.probing ==> host.reqs == p.reqs)
      ensures Logged(code, start, log, owed, memory.syms, host.reqs)
      ensures OkGuards(Path(), memory.syms) && Under(Path(), p.reqs, host.reqs) && p.reqs <= host.reqs
    {
      hide Logged, Asked;
      LoggedMore(code, start, log, owed, p.syms, p.reqs, memory.syms, host.reqs);
      OkReqsStable(p.reqs, Path(), p.syms, memory.syms);
      UnderPath(host.guards, looking, p.reqs, host.reqs);
    }

    ghost function Budget(): nat
      reads this
    {
      if steps <= maxSteps then maxSteps + 1 - steps else 0
    }

    /** Nothing but the state, memory, symbols, requirements, log and budgets moved. */
    twostate predicate Moved()
      reads this, host, memory
    {
      && Valid()
      && host.guards == old(host.guards) && host.probing == old(host.probing) && looking == old(looking)
      && pathDepth == old(pathDepth) && steps >= old(steps)
      && (host.probing ==> host.reqs == old(host.reqs))
      && Journaled(old(memory.journals), old(memory.Cells()), memory.journals, memory.Cells())
    }

    /** And those moved as they should from `p`: execution from there advanced, and ended with status `r`. */
    twostate predicate Went(p: View, r: Status)
      reads this, host, memory
    {
      Moved() && Advances(Steps(code), Path(), r, p, Here()) && Owing(Path(), r)
    }

    /** And the machine gave up for a cause. */
    twostate predicate Came(p: View, r: Status)
      reads this, host, memory
    {
      Went(p, r) && (r.Failed? ==> Unfinished())
    }

    /** There is a cause for giving up. */
    ghost predicate Unfinished()
      reads this`steps, this`probeSteps, this`cause, this`looking, host`probing, host`guards
    {
      if host.probing then Blinded(Path()) else Excused(Path())
    }

    /** What execution under `path` that ended with status `r` leaves owed. */
    twostate predicate Owing(path: seq<Lit>, r: Status)
      reads this, memory
    {
      (r.Ok? ==> owed == old(owed)) && (r.Diverged? ==> OwedUnder(path, memory.syms, old(owed), owed))
    }

    // ----- one instruction -----

    method StepShape(op: Op) returns (r: Status)
      requires Valid() && Ready(code, Path(), Here(), st, op) && Moves(op)
      modifies this`st
      ensures Went(old(Here()), r) && (r.Ok? ==> Goes(old(st), st))
      ensures r.Failed? ==> Shape(|code|, op, old(st)).None?
    {
      JournaledRefl(memory.journals, memory.Cells());
      NoReqs(host.reqs, [], Path());
      match Shape(|code|, op, st) {
        case None =>
          r := Failed;
        case Some(next) =>
          ShapeKeeps(|code|, op, st, memory.syms);
          ShapeStep(code, Path(), Here(), st, next);
          ShapeOnward(code, st, next);
          st := next;
          r := Ok;
      }
    }

    method StepConst(x: I32) returns (r: Status)
      requires Valid() && Ready(code, Path(), Here(), st, Const(x))
      modifies this`st
      ensures Went(old(Here()), r) && (r.Ok? ==> Goes(old(st), st))
      ensures r.Ok?
    {
      JournaledRefl(memory.journals, memory.Cells());
      PopPush(st, 0, C(x), memory.syms, memory.syms);
      assert st.Pop(0) == st;
      PushOnward(code, st, 0, C(x));
      ConstStep(code, Path(), Here(), st, x, Here().(from := At(st.Push(C(x)), memory.Cells())));
      st := st.Push(C(x));
      r := Ok;
    }

    method StepBin(o: Bin) returns (r: Status)
      requires Valid() && Ready(code, Path(), Here(), st, Binop(o))
      modifies this`st, host`reqs, memory`syms, memory`divs
      ensures Went(old(Here()), r) && (r.Ok? ==> Goes(old(st), st))
      ensures r.Failed? ==> host.probing && (old(st).stack[|old(st).stack| - 2].IsSym() || old(st).Top().IsSym())
    {
      hide RunsTo, Diverges, Sound, Logged, Narrow, Valuation, Undo, Journaled, OkSyms, OkCells, ExactCounts, CellsOf,
        WorthUnder, DivReqs, AlwaysTraps, Asked;
      ghost var p := Here();
      var k := |st.stack|;
      var v;
      JournaledRefl(memory.journals, memory.Cells());
      r, v := host.BinAny(o, st.stack[k - 2], st.stack[k - 1]);
      OkStateStable(st, p.syms, memory.syms);
      Grew(p);
      if r.Ok? {
        DivReqsPath(host.guards, looking, p.syms, o, st.stack[k - 1], p.reqs, memory.syms, host.reqs);
        WorthPath(host.guards, looking, p.syms, BinOf(o, st.stack[k - 2], st.stack[k - 1]), memory.syms, v);
        PopPush(st, 2, v, p.syms, memory.syms);
        PushOnward(code, st, 2, v);
        BinStep(code, Path(), p, st, o, ViewOf(At(st.Pop(2).Push(v), memory.Cells())), v);
        st := st.Pop(2).Push(v);
      } else if r.Diverged? {
        BinTraps(code, Path(), p, st, o, Here());
        NothingOwed(Path(), memory.syms, owed);
      }
    }

    method StepCmp(c: Cmp) returns (r: Status)
      requires Valid() && Ready(code, Path(), Here(), st, Cmpop(c))
      modifies this`st, memory`syms
      ensures Went(old(Here()), r) && (r.Ok? ==> Goes(old(st), st))
      ensures r.Failed? ==> old(st).stack[|old(st).stack| - 2].IsSym() || old(st).Top().IsSym()
      ensures !host.probing ==>
        (r.Failed? <==> !Compares(old(memory.syms), c, old(st).stack[|old(st).stack| - 2], old(st).Top()))
    {
      hide RunsTo, Diverges, Sound, Logged, Narrow, Valuation, Undo, Journaled, OkSyms, OkCells, ExactCounts, CellsOf,
        Under, OwedUnder, Asked, Compares;
      ghost var p := Here();
      var k := |st.stack|;
      var v;
      JournaledRefl(memory.journals, memory.Cells());
      NoReqs(host.reqs, [], host.guards);
      r, v := host.CmpAny(c, st.stack[k - 2], st.stack[k - 1]);
      OkStateStable(st, p.syms, memory.syms);
      Grew(p);
      if r.Ok? {
        PopPush(st, 2, v, p.syms, memory.syms);
        PushOnward(code, st, 2, v);
        CmpStep(code, Path(), p, st, c, ViewOf(At(st.Pop(2).Push(v), memory.Cells())), v);
        st := st.Pop(2).Push(v);
      }
    }

    method StepEqz() returns (r: Status)
      requires Valid() && Ready(code, Path(), Here(), st, Eqz)
      modifies this`st, memory`syms
      ensures Went(old(Here()), r) && (r.Ok? ==> Goes(old(st), st))
      ensures r.Failed? ==> host.probing && old(st).Top().IsSym()
    {
      hide RunsTo, Diverges, Sound, Logged, Narrow, Valuation, Undo, Journaled, OkSyms, OkCells, ExactCounts, CellsOf,
        Under, OwedUnder, Asked;
      ghost var p := Here();
      var v;
      JournaledRefl(memory.journals, memory.Cells());
      NoReqs(host.reqs, [], host.guards);
      r, v := host.EqzAny(st.Top());
      OkStateStable(st, p.syms, memory.syms);
      Grew(p);
      if r.Ok? {
        PopPush(st, 1, v, p.syms, memory.syms);
        PushOnward(code, st, 1, v);
        EqzStep(code, Path(), p, st, ViewOf(At(st.Pop(1).Push(v), memory.Cells())), v);
        st := st.Pop(1).Push(v);
      }
    }

    method StepSelect() returns (r: Status)
      requires Valid() && Ready(code, Path(), Here(), st, Select)
      modifies this`st, memory`syms
      ensures Went(old(Here()), r) && (r.Ok? ==> Goes(old(st), st))
      ensures r.Failed? ==> host.probing && SightOf(old(memory.syms), old(st).Top()).Blind?
    {
      hide RunsTo, Diverges, Sound, Logged, Narrow, Valuation, Undo, Journaled, Decides, OkSyms, OkCells, ExactCounts,
        CellsOf, Under, OwedUnder, OkVs, Advances, OkGuards, OkReqs, Keeps, Selected, Asked;
      ghost var p := Here();
      var k;
      OperandNarrow(st, memory.syms, |st.stack| - 1);
      JournaledRefl(memory.journals, memory.Cells());
      NoReqs(host.reqs, [], host.guards);
      r, k := host.Cond(st.Top());
      OkStateStable(st, p.syms, memory.syms);
      Grew(p);
      ghost var syms1 := memory.syms;
      if r.Ok? {
        var v := Choose(k, p);
        PopPush(st, 3, v, p.syms, memory.syms);
        PushOnward(code, st, 3, v);
        SelectStep(code, Path(), p, st, syms1, k, ViewOf(At(st.Pop(3).Push(v), memory.Cells())), v);
        st := st.Pop(3).Push(v);
      } else {
        StepFails(Steps(code), Path(), p, Here());
      }
    }

    /** The first or the second operand, as `k` says of the third. */
    method Choose(k: Truth, ghost p: View) returns (v: V)
      requires Valid() && Ready(code, Path(), p, st, Select) && p.from == At(st, memory.Cells())
        && p.syms <= memory.syms
      requires k.OnWire? ==> IsCond(memory.syms, k.cond)
      modifies memory`syms
      ensures Moved() && old(memory.syms) <= memory.syms && Narrow(memory.syms, v)
      ensures Selected(k, st, old(memory.syms), memory.syms, v)
    {
      hide Sound, Logged, Narrow, Valuation, Undo, Journaled, OkSyms, OkCells, ExactCounts, CellsOf, Under, OkVs,
        OkGuards, OkReqs, Asked;
      ghost var p1 := Here();
      var n := |st.stack|;
      var (a, b) := (st.stack[n - 3], st.stack[n - 2]);
      OperandNarrow(st, memory.syms, n - 3);
      OperandNarrow(st, memory.syms, n - 2);
      JournaledRefl(memory.journals, memory.Cells());
      NoReqs(host.reqs, [], host.guards);
      match k {
        case Known(taken) => v := if taken then a else b;
        case OnWire(cond) => v := host.Select(cond, a, b);
      }
      OkStateStable(st, p1.syms, memory.syms);
      Grew(p1);
    }

    /** The value at the top pointer. */
    method AskLoad(w: Width, off: nat) returns (r: Status, v: V)
      requires Valid() && Ready(code, Path(), Here(), st, Load(w, off))
      modifies host`reqs, memory`syms
      ensures Moved() && old(memory.syms) <= memory.syms && Under(Path(), old(host.reqs), host.reqs)
      ensures var (syms, cells, n) := (old(memory.syms), memory.Cells(), |memory.mem|);
        && (r.Ok? <==> P.LeavesLoad(syms, index(syms), host.probing, st.Top())
                       && P.LeavesHaveSlots(syms, index(syms), st.Top(), off, w.Size(), n))
        && (r.Ok? ==> Narrow(memory.syms, v) && P.LoadsHeld(syms, cells, st.Top(), off, w.Size(), memory.syms, v)
                      && P.LeavesBind(host.guards, syms, st.Top(), off, w.Size(), n, old(host.reqs), memory.syms,
                        host.reqs))
        && (r.Diverged? ==> !P.LeavesHaveSlots(syms, index(syms), st.Top(), off, w.Size(), n))
      ensures r.Failed? ==> !P.LeavesLoad(old(memory.syms), index(old(memory.syms)), host.probing, st.Top())
    {
      hide Logged, Narrow, Valuation, Undo, Journaled, Sound, P.LoadsHeld, P.LeavesBind, P.LeavesHaveSlots,
        P.LeavesLoad, OkSyms, OkCells, Under, ExactCounts, CellsOf, P.OkForms, OkGuards, OkReqs, OkVs, Asked;
      ghost var p := Here();
      JournaledRefl(memory.journals, memory.Cells());
      SoundAt(index, memory.syms);
      OperandNarrow(st, memory.syms, |st.stack| - 1);
      r, v := P.LoadAny(host, index(memory.syms), st.Top(), off, w.Size());
      OkStateStable(st, p.syms, memory.syms);
      Grew(p);
    }

    method StepLoad(w: Width, off: nat) returns (r: Status)
      requires Valid() && Ready(code, Path(), Here(), st, Load(w, off)) && Found(Steps(code), start, Path(), Here())
      modifies this`st, this`log, this`owed, host`reqs, memory`syms
      ensures Went(old(Here()), r) && (r.Ok? ==> Goes(old(st), st))
      ensures r.Ok? <==> var (syms, a) := (old(memory.syms), old(st).Top());
        P.LeavesLoad(syms, index(syms), host.probing, a)
          && P.LeavesHaveSlots(syms, index(syms), a, off, w.Size(), |memory.mem|)
      ensures r.Ok? ==> log == old(log) + [LoadOf(Path(), old(Here()), w, off)]
      ensures r.Failed? ==> !P.LeavesLoad(old(memory.syms), index(old(memory.syms)), host.probing, old(st).Top())
    {
      hide Onward, OutlineOf, RunsTo, Diverges, Logged, Narrow, Valuation, Undo, Journaled, Sound, P.LoadsHeld,
        P.LeavesBind, P.LeavesHaveSlots, OkSyms, P.LeavesLoad, OkCells, Under, ExactCounts, CellsOf, P.OkForms, Found,
        OwedUnder, Advances, LoadOf, Strayed, OkGuards, OkReqs, OkVs, Keeps, Asked;
      ghost var (p, e) := (Here(), LoadOf(Path(), Here(), w, off));
      var v;
      r, v := AskLoad(w, off);
      SoundAt(index, p.syms);
      if r.Ok? {
        ghost var q := View(At(st.Pop(1).Push(v), memory.Cells()), memory.syms, host.reqs, log + [e]);
        LoadAccepted(code, start, host.guards, looking, p, st, w, off, owed, v, q);
        PushOnward(code, st, 1, v);
        log := q.log;
        st := st.Pop(1).Push(v);
      } else if r.Diverged? {
        ghost var q := View(At(st, memory.Cells()), memory.syms, host.reqs, log + [e]);
        LoadTurnedDown(code, start, Path(), p, st, w, off, owed, q, index(p.syms));
        log, owed := q.log, owed + Strayed(e);
      } else {
        StepFails(Steps(code), Path(), p, Here());
      }
    }

    /** Write the top value at the pointer below it. */
    method AskStore(w: Width, off: nat) returns (r: Status)
      requires Valid() && Ready(code, Path(), Here(), st, Store(w, off))
      modifies host`reqs, memory`syms, memory`mem, memory`shadow, memory`gran, memory`journals
      ensures Moved() && old(memory.syms) <= memory.syms && Under(Path(), old(host.reqs), host.reqs)
      ensures var (syms, cells, n, a) := (old(memory.syms), old(memory.Cells()), old(|memory.mem|),
        st.stack[|st.stack| - 2]);
        && |memory.mem| == n
        && (r.Ok? ==> P.StoresHeld(syms, cells, a, off, w.Size(), st.Top(), memory.syms, memory.Cells())
                      && P.InBoundsOnly(host.guards, syms, a, off, w.Size(), n, old(host.reqs), memory.syms, host.reqs)
                      && (P.ConcreteSelect(syms, a) ==> P.AllInBounds(syms, index(syms), a, off, w.Size(), n)))
        && (r.Diverged? ==> if P.ConcreteSelect(syms, a) then !P.AllInBounds(syms, index(syms), a, off, w.Size(), n)
                            else forall inp :: P.Held(syms, a, off, inp) + w.Size() > n)
      ensures r.Failed? <==>
        !P.Stores(old(memory.syms), index(old(memory.syms)), host.probing, st.stack[|st.stack| - 2])
    {
      hide Logged, Narrow, Valuation, Undo, Journaled, Sound, P.StoresHeld, P.InBoundsOnly, OkSyms, P.AllInBounds,
        OkCells, Under, ExactCounts, CellsOf, P.OkForms, OkGuards, OkReqs, P.Held, P.ConcreteSelect, OkVs, P.Stores,
        Asked;
      ghost var p := Here();
      SoundAt(index, memory.syms);
      OperandNarrow(st, memory.syms, |st.stack| - 2);
      OperandNarrow(st, memory.syms, |st.stack| - 1);
      r := P.StoreAny(host, index(memory.syms), st.stack[|st.stack| - 2], off, w.Size(), st.Top());
      OkStateStable(st, p.syms, memory.syms);
      Grew(p);
    }

    method StepStore(w: Width, off: nat) returns (r: Status)
      requires Valid() && Ready(code, Path(), Here(), st, Store(w, off)) && Found(Steps(code), start, Path(), Here())
      modifies this`st, this`log, this`owed, host`reqs, memory`syms, memory`mem, memory`shadow, memory`gran,
        memory`journals
      ensures Went(old(Here()), r) && (r.Ok? ==> Goes(old(st), st))
      ensures r.Failed? <==> var syms := old(memory.syms);
        !P.Stores(syms, index(syms), host.probing, old(st).stack[|old(st).stack| - 2])
    {
      hide Onward, OutlineOf, RunsTo, Diverges, Logged, Narrow, Valuation, Undo, Journaled, Sound, P.StoresHeld,
        P.InBoundsOnly, OkSyms, P.AllInBounds, OkCells, Under, ExactCounts, CellsOf, P.OkForms, Found, OwedUnder,
        Advances, StoreOf, Strayed, OkGuards, OkReqs, P.Held, P.ConcreteSelect, OkVs, Keeps, Asked, P.Stores;
      ghost var (p, e) := (Here(), StoreOf(Path(), Here(), w, off));
      r := AskStore(w, off);
      if r.Ok? {
        ghost var q := View(At(st.Pop(2).(pc := st.pc + 1), memory.Cells()), memory.syms, host.reqs, log + [e]);
        StoreAccepted(code, start, host.guards, looking, p, st, w, off, owed, q, index(p.syms));
        StoreOnward(code, st);
        log := q.log;
        st := st.Pop(2).(pc := st.pc + 1);
      } else if r.Diverged? {
        ghost var q := View(At(st, memory.Cells()), memory.syms, host.reqs, log + [e]);
        StoreTurnedDown(code, start, Path(), p, st, w, off, owed, q, index(p.syms));
        log, owed := q.log, owed + Strayed(e);
      } else {
        StepFails(Steps(code), Path(), p, Here());
      }
    }

    method StepBranch(op: Op) returns (r: Status)
      requires Valid() && Ready(code, Path(), Here(), st, op) && (op.If? || op.BrIf?) && Comes(Here())
      modifies this, host, memory
      ensures Went(old(Here()), r) && (r.Ok? ==> Passes(old(st), st))
      ensures r.Failed? ==>
        GivesUpAt(code, old(st), old(memory.syms), index, host.probing) || Unfinished()
      decreases Budget(), 12
    {
      hide GivesUpAt, Excused, Passes, OutlineOf, Target, RunsTo, Diverges, Sound, Logged, Narrow, Valuation, Undo,
        Journaled, Found, Asked, Led, Onward, Left, OkSyms, OkCells, ExactCounts, CellsOf, OkReqs;
      ghost var p := Here();
      var k;
      JournaledRefl(memory.journals, memory.Cells());
      NoReqs(host.reqs, [], host.guards);
      r, k := host.Cond(st.Top());
      OkStateStable(st, p.syms, memory.syms);
      Grew(p);
      if !r.Ok? {
        BlindGivesUp(st, op, p.syms);
        return;
      }
      match k {
        case Known(taken) =>
          var next := Target(|code|, st, op, taken);
          if next.None? {
            TargetGivesUp(st, op, taken, p.syms, host.probing);
            return Failed;
          }
          TargetKeeps(|code|, st, op, taken, memory.syms);
          BranchStep(code, Path(), p, st, op, k, ViewOf(At(next.value, memory.Cells())));
          TargetOnward(code, st, taken);
          GoesPasses(st, next.value);
          st := next.value;
        case OnWire(cond) =>
          r := StepFork(op, cond, p);
      }
    }

    /** A branch on a witness: both arms rejoin at the end of the `if`, or past the branch's label. */
    method StepFork(op: Op, cond: nat, ghost p: View) returns (r: Status)
      requires Valid() && (op.If? || op.BrIf?) && p.from == At(st, memory.Cells()) && p.reqs == host.reqs
        && p.log == log
      requires Ready(code, Path(), p, st, op) && Decides(p.syms, st.Top(), memory.syms, OnWire(cond)) && Comes(p)
      requires st.Top().IsSym()
      modifies this, host, memory
      ensures Went(p, r) && (r.Ok? ==> Passes(old(st), st))
      ensures r.Failed? ==> GivesUpAt(code, old(st), p.syms, index, host.probing) || Unfinished()
      decreases Budget(), 11
    {
      hide GivesUpAt, Excused, Bound, Branches, OutlineOf, RunsTo, Diverges, Sound, Logged, Narrow, Valuation, Undo,
        Journaled, Found, OwedUnder, Asked, Led, Onward, Left, Dropped, BlindBy;
      JournaledRefl(memory.journals, memory.Cells());
      NoReqs(host.reqs, [], Path());
      var (t, e) := (Target(|code|, st, op, true), Target(|code|, st, op, false));
      if t.None? || e.None? {
        TargetGivesUp(st, op, t.None?, p.syms, host.probing);
        return Failed;
      }
      if op.BrIf? && st.ctl[|st.ctl| - 1 - op.depth].isLoop {
        // A loop whose exit depends on a witness.
        LoopGivesUp(st, op, p.syms, host.probing);
        return Failed;
      }
      var stop := if op.If? then |st.ctl| else |st.ctl| - 1 - op.depth;
      TargetKeeps(|code|, st, op, true, memory.syms);
      TargetKeeps(|code|, st, op, false, memory.syms);
      ghost var q := ViewOf(Either(cond, t.value, memory.Cells(), e.value, memory.Cells()));
      BranchStep(code, Path(), p, st, op, OnWire(cond), q);
      FoundNext(Steps(code), start, Path(), p, q);
      ArmsBound(st, op, stop, t.value, e.value);
      ghost var st0 := st;
      ghost var lt, le;
      r, lt, le := Fork(cond, t.value, e.value, stop);
      AdvancesTrans(Steps(code), Path(), p, q, r, Here());
      if r.Ok? {
        MetPasses(st0, e.value, stop, st);
      }
    }

    /** Where the arms of a branch met, seen from the branch. */
    lemma MetPasses(s: State<V>, e: State<V>, stop: nat, t: State<V>)
      requires s.ctl <= e.ctl && |t.ctl| <= stop <= |s.ctl| && SameSize(s, t) && LeftFrom(e.ctl, t)
      ensures Passes(s, t)
    {
      hide Led, Onward;
      assert t.ctl <= s.ctl by {
        assert e.ctl[..|t.ctl|] == s.ctl[..|t.ctl|];
      }
      LeftLed(code, from, e.ctl, OutlineOf(t));
      if |t.ctl| < |s.ctl| {
        assert e.ctl[..|t.ctl| + 1] == s.ctl[..|t.ctl| + 1];
        LeftOther(code, from, e.ctl, s.ctl, OutlineOf(t));
      }
    }

    lemma BlindGivesUp(s: State<V>, op: Op, syms: seq<Sym>)
      requires s.pc < |code| && code[s.pc] == op && (op.If? || op.BrIf?) && |s.stack| > 0
      requires SightOf(syms, s.Top()).Blind?
      ensures GivesUpAt(code, s, syms, index, true)
    {
    }

    lemma TargetGivesUp(s: State<V>, op: Op, taken: bool, syms: seq<Sym>, blind: bool)
      requires s.pc < |code| && code[s.pc] == op && (op.If? || op.BrIf?) && |s.stack| > 0
      requires Target(|code|, s, op, taken).None? && (s.Top().IsSym() || taken == (s.Top().b != 0))
      ensures GivesUpAt(code, s, syms, index, blind)
    {
    }

    lemma LoopGivesUp(s: State<V>, op: Op, syms: seq<Sym>, blind: bool)
      requires s.pc < |code| && code[s.pc] == op && op.BrIf? && |s.stack| > 0 && s.Top().IsSym()
      requires LoopLabel(s.ctl, op.depth)
      ensures GivesUpAt(code, s, syms, index, blind)
    {
    }

    /** The arms of a branch share their labels, up to the one they rejoin past. */
    lemma ArmsBound(s: State<V>, op: Op, stop: nat, t: State<V>, e: State<V>)
      requires OnTrack(s) && s.ctl != [] && s.pc < |code| && code[s.pc] == op && (op.If? || op.BrIf?) && |s.stack| > 0
      requires Target(|code|, s, op, true) == Some(t) && Target(|code|, s, op, false) == Some(e)
      requires op.BrIf? ==> !LoopLabel(s.ctl, op.depth)
      requires stop == if op.If? then |s.ctl| else |s.ctl| - 1 - op.depth
      ensures OnTrack(t) && OnTrack(e) && Branches(code, from, OutlineOf(t), OutlineOf(e))
      ensures Bound(e.ctl, stop, t) && |e.ctl| > stop && s.ctl <= e.ctl
    {
      hide Led, Onward, Left;
      TargetOnward(code, s, true);
      TargetOnward(code, s, false);
      TargetOutline(|code|, s, op, true);
      TargetOutline(|code|, s, op, false);
      assert BranchesAt(code, OutlineOf(s), OutlineOf(t), OutlineOf(e));
      LedOn(code, from, OutlineOf(s), OutlineOf(t));
      LedOn(code, from, OutlineOf(s), OutlineOf(e));
      if op.BrIf? {
        LeftBy(code, from, OutlineOf(s), OutlineOf(t));
      }
    }

    /** Execute the instruction at `pc`. */
    method Step() returns (r: Status)
      requires Valid() && st.ctl != [] && Comes(Here())
      modifies this, host, memory
      ensures Came(old(Here()), r) && (r.Ok? ==> Passes(old(st), st))
      decreases Budget(), 14
    {
      hide RunsTo, Diverges, Sound, Logged, Narrow, Valuation, Undo, Journaled, Found, OwedUnder, Asked, OkSyms,
        OkCells, ExactCounts, CellsOf, OkVs, OkGuards, OkReqs, Compares, P.LeavesLoad, P.Stores, Keeps, GivesUpAt, Led,
        Onward, Left;
      ghost var (p, path) := (Here(), Path());
      r := StepAny();
      if r.Failed? && GivesUpAt(code, p.from.st, p.syms, index, host.probing) {
        cause := Stops(path, p);
      }
    }

    method StepAny() returns (r: Status)
      requires Valid() && st.ctl != [] && Comes(Here())
      modifies this, host, memory
      ensures Went(old(Here()), r) && (r.Ok? ==> Passes(old(st), st))
      ensures r.Failed? ==>
        GivesUpAt(code, old(st), old(memory.syms), index, host.probing) || Unfinished()
      decreases Budget(), 13
    {
      hide RunsTo, Diverges, Sound, Logged, Narrow, Valuation, Undo, Journaled, Found, OwedUnder, Asked, OkSyms,
        OkCells, ExactCounts, CellsOf, OkVs, OkGuards, OkReqs, Compares, P.LeavesLoad, P.Stores, Keeps, Led, Onward,
        Left;
      if st.pc >= |code| || |st.stack| < Operands(code[st.pc]) {
        JournaledRefl(memory.journals, memory.Cells());
        NoReqs(host.reqs, [], Path());
        return Failed;
      }
      var op := code[st.pc];
      if op.If? || op.BrIf? {
        r := StepBranch(op);
      } else {
        ghost var st0 := st;
        r := StepPlain(op);
        if r.Ok? {
          GoesPasses(st0, st);
        }
      }
    }

    /** Execute an instruction that does not branch on a value. */
    method StepPlain(op: Op) returns (r: Status)
      requires Valid() && Ready(code, Path(), Here(), st, op) && !op.If? && !op.BrIf? && Comes(Here())
      modifies this`st, this`log, this`owed, host`reqs, memory
      ensures Went(old(Here()), r) && (r.Ok? ==> Goes(old(st), st))
      ensures r.Failed? ==> GivesUpAt(code, old(st), old(memory.syms), index, old(host.probing))
    {
      hide RunsTo, Diverges, Sound, Logged, Narrow, Valuation, Undo, Journaled, Found, OwedUnder, Asked, OkSyms,
        OkCells, ExactCounts, CellsOf, OkVs, OkGuards, OkReqs, Compares, P.LeavesLoad, P.Stores, Keeps, Led, Onward,
        Left, Goes, OkState, Advances;
      if op.Unreachable? {
        JournaledRefl(memory.journals, memory.Cells());
        NoReqs(host.reqs, [], Path());
        Unreached(code, Path(), Here(), st);
        NothingOwed(Path(), memory.syms, owed);
        r := Diverged;
      } else if op.Const? {
        r := StepConst(op.c);
      } else if op.Eqz? || op.Binop? || op.Cmpop? || op.Select? {
        r := StepComputing(op);
      } else if op.Load? {
        r := StepLoad(op.w, op.off);
      } else if op.Store? {
        r := StepStore(op.w, op.off);
      } else {
        r := StepShape(op);
      }
    }

    method StepComputing(op: Op) returns (r: Status)
      requires Valid() && Ready(code, Path(), Here(), st, op) && (op.Eqz? || op.Binop? || op.Cmpop? || op.Select?)
      modifies this`st, host`reqs, memory`syms, memory`divs
      ensures Went(old(Here()), r) && (r.Ok? ==> Goes(old(st), st))
      ensures r.Failed? ==> GivesUpAt(code, old(st), old(memory.syms), index, old(host.probing))
    {
      hide RunsTo, Diverges, Sound, Logged, Narrow, Valuation, Undo, Journaled, Found, OwedUnder, Asked, OkSyms,
        OkCells, ExactCounts, CellsOf, OkVs, OkGuards, OkReqs, Compares, Keeps, Led, Onward, Left, Goes, OkState,
        Advances;
      match op {
        case Eqz => r := StepEqz();
        case Binop(o) => r := StepBin(o);
        case Cmpop(c) => r := StepCmp(c);
        case Select => r := StepSelect();
      }
    }

    /** Count an instruction against the budgets. */
    method Spend() returns (ok: bool)
      modifies this`steps, this`probeSteps
      ensures steps == old(steps) + 1
      ensures ok ==> steps <= maxSteps
      ensures !ok ==> steps > maxSteps || (host.probing && probeSteps > maxProbe)
    {
      steps := steps + 1;
      if host.probing {
        probeSteps := probeSteps + 1;
      }
      ok := (host.probing ==> probeSteps <= maxProbe) && steps <= maxSteps;
    }

    /** Execute the instruction at `pc`, within the budgets. */
    method Advance() returns (r: Status)
      requires Valid() && st.ctl != [] && Comes(Here())
      modifies this, host, memory
      ensures Came(old(Here()), r) && steps > old(steps)
      ensures r.Ok? ==> Passes(old(st), st) && Comes(Here()) && old(steps) < maxSteps
      decreases Budget(), 1
    {
      hide Led, Onward, Left, RunsTo, Diverges, Sound, Logged, Narrow, Valuation, Undo, Journaled, Advances, OkSyms,
        OkCells, ExactCounts, CellsOf, Under, Found, OwedUnder, Asked, OkGuards, OkReqs, OkVs, Excused, Keeps;
      ghost var p := Here();
      JournaledRefl(memory.journals, memory.Cells());
      var ok := Spend();
      if !ok {
        AdvancesSelf(Steps(code), Path(), p);
        GivesUp(Steps(code), Path(), Ok, p, p);
        cause := Spent;
        SpentUnfinished();
        return Failed;
      }
      r := Step();
      if r.Ok? {
        FoundNext(Steps(code), start, Path(), p, Here());
      }
    }

    /** From `s0`, above `stop` labels or just come down to them. */
    ghost predicate OnWay(s0: State<V>, stop: nat, s: State<V>) {
      SameSize(s0, s) && if |s0.ctl| <= stop then s == s0 else Bound(s0.ctl, stop, s)
    }

    lemma NextOnWay(s0: State<V>, stop: nat, s: State<V>, t: State<V>)
      requires OnWay(s0, stop, s) && |s.ctl| > stop && Passes(s, t)
      ensures OnWay(s0, stop, t)
    {
      hide Led, Left;
      if |t.ctl| <= stop {
        LeftDown(s, stop, t);
        BoundDown(s0.ctl, stop, s, t);
      } else {
        assert t.ctl[..stop + 1] == s.ctl[..stop + 1];
      }
    }

    lemma FirstOnWay(s0: State<V>, stop: nat)
      ensures OnWay(s0, stop, s0)
    {
    }

    lemma WayDown(s0: State<V>, stop: nat, s: State<V>)
      requires OnWay(s0, stop, s) && |s.ctl| <= stop && OnTrack(s)
      ensures Down(s0, stop, s)
    {
      hide Led, Left;
      if |s0.ctl| > stop {
        LeftDown(s0, stop, s);
      }
    }

    lemma LeftDown(s0: State<V>, stop: nat, s: State<V>)
      requires SameSize(s0, s) && |s.ctl| <= stop < |s0.ctl| && LeftFrom(s0.ctl, s)
      ensures Down(s0, stop, s)
    {
      hide Led;
      LeftLed(code, from, s0.ctl, OutlineOf(s));
    }

    /** Execute until the control stack drops to at most `stop` labels. */
    method Run(stop: nat) returns (r: Status)
      requires Valid() && Comes(Here())
      modifies this, host, memory
      ensures Came(old(Here()), r) && (r.Ok? ==> Down(old(st), stop, st))
      decreases Budget(), 2
    {
      hide Led, Onward, Left, RunsTo, Diverges, Sound, Logged, Narrow, Valuation, Undo, Journaled, Advances, OkSyms,
        OkCells, ExactCounts, CellsOf, Under, Found, OwedUnder, Asked, OkGuards, OkReqs, OkVs, Excused, Bound, Passes;
      ghost var (p, s0) := (Here(), st);
      JournaledRefl(memory.journals, memory.Cells());
      AdvancesSelf(Steps(code), Path(), p);
      FirstOnWay(s0, stop);
      while |st.ctl| > stop
        invariant Went(p, Ok) && Comes(Here()) && OnWay(s0, stop, st)
        decreases Budget()
      {
        ghost var (q, js, cells) := (Here(), memory.journals, memory.Cells());
        r := Advance();
        JournaledTrans(old(memory.journals), old(memory.Cells()), js, cells, memory.journals, memory.Cells());
        AdvancesOk(Steps(code), Path(), Ok, p, q);
        AdvancesTrans(Steps(code), Path(), p, q, r, Here());
        if !r.Ok? {
          return;
        }
        NextOnWay(s0, stop, q.from.st, st);
      }
      WayDown(s0, stop, st);
      r := Ok;
    }

    // ----- branch paths -----

    /** Go on from `s0` once `writes` are replayed. */
    method Resume(s0: State<V>, writes: Writes, stop: nat) returns (r: Status)
      requires Valid() && OkState(s0, memory.syms) && OkWrites(writes, |memory.mem|, |memory.syms|)
      requires Comes(ViewOf(At(s0, Apply(writes, memory.Cells()))))
      modifies this, host, memory
      ensures Came(old(ViewOf(At(s0, Apply(writes, memory.Cells())))), r)
      ensures r.Ok? ==> Down(s0, stop, st)
      decreases Budget(), 3
    {
      hide Led, Left, RunsTo, Diverges, Sound, Logged, Narrow, Valuation, Undo, Journaled, Advances, Found, OwedUnder,
        Asked, Blinded, Unfinished;
      st := s0;
      memory.Replay(writes);
      ghost var (js, cells) := (memory.journals, memory.Cells());
      if |st.ctl| > stop {
        r := Run(stop);
        JournaledTrans(old(memory.journals), old(memory.Cells()), js, cells, memory.journals, memory.Cells());
      } else {
        AdvancesSelf(Steps(code), Path(), Here());
        r := Ok;
      }
    }

    /** The machine is where it was, but for the symbols, the requirements, the log and the budgets. */
    twostate predicate Stayed()
      reads this, host, memory
    {
      && Valid() && st == old(st) && memory.Cells() == old(memory.Cells()) && memory.journals == old(memory.journals)
      && host.guards == old(host.guards) && host.probing == old(host.probing) && looking == old(looking)
      && (host.probing ==> host.reqs == old(host.reqs))
      && pathDepth == old(pathDepth) && steps >= old(steps) && old(memory.syms) <= memory.syms
    }

    /**
     * Run one path from `s0`, with `apply` written first, until the control stack is at most `stop`. Its
     * memory writes are recorded and undone, and the machine's own state put back, however the path ends.
     */
    method RunPath(s0: State<V>, apply: Writes, stop: nat) returns (r: Status, paused: State<V>, writes: Writes)
      requires Valid() && OkState(s0, memory.syms) && OkWrites(apply, |memory.mem|, |memory.syms|)
      requires Comes(ViewOf(At(s0, Apply(apply, memory.Cells())))) && pathDepth < |Path()|
      modifies this, host, memory
      ensures Stayed() && OkWrites(writes, |memory.mem|, |memory.syms|) && Owing(Path(), r)
      ensures Advances(Steps(code), Path(), r, old(ViewOf(At(s0, Apply(apply, memory.Cells())))),
                       ViewOf(At(paused, Apply(writes, memory.Cells()))))
      ensures r.Ok? ==> Down(s0, stop, paused)
      ensures r.Failed? ==> Unfinished()
      decreases Budget(), 4
    {
      hide Led, Left, RunsTo, Diverges, Sound, Logged, Narrow, Valuation, Advances, Undo, Journaled, Found, OwedUnder,
        Asked, Excused, Down, OkSyms, ExactCounts, CellsOf, OkVs, OkReqs, OkGuards, Blinded, Unfinished, ComesBy,
        Tracked;
      var saved := st;
      ghost var (cells, js, p) := (memory.Cells(), memory.journals, ViewOf(At(s0, Apply(apply, memory.Cells()))));
      memory.OpenPath();
      pathDepth := pathDepth + 1;
      r := Resume(s0, apply, stop);
      pathDepth := pathDepth - 1;
      AdvancesOk(Steps(code), Path(), r, p, Here());
      JournaledOne(js, cells, memory.journals, memory.Cells());
      writes := memory.ClosePath();
      paused := st;
      st := saved;
      OkStateStable(saved, p.syms, memory.syms);
    }

    /** `RunPath` for the arm where `cond == value`: what it requires binds only where the arm is taken. */
    method RunArm(cond: nat, value: bool, s0: State<V>, apply: Writes, stop: nat)
      returns (r: Status, paused: State<V>, writes: Writes)
      requires Valid() && !host.probing && IsCond(memory.syms, cond)
      requires OkState(s0, memory.syms) && OkWrites(apply, |memory.mem|, |memory.syms|)
      requires ComesBy(Path() + [Lit(cond, value)], ViewOf(At(s0, Apply(apply, memory.Cells()))))
      modifies this, host, memory
      ensures Stayed() && OkWrites(writes, |memory.mem|, |memory.syms|) && Owing(Path() + [Lit(cond, value)], r)
      ensures Advances(Steps(code), Path() + [Lit(cond, value)], r, old(ViewOf(At(s0, Apply(apply, memory.Cells())))),
                       ViewOf(At(paused, Apply(writes, memory.Cells()))))
      ensures r.Ok? ==> Down(s0, stop, paused)
      ensures r.Failed? ==> Excused(Path())
      decreases Budget(), 5
    {
      hide Led, Left, RunsTo, Diverges, Sound, Logged, Narrow, Valuation, Advances, Found, OwedUnder, Asked, Blinded;
      ghost var more := Path() + [Lit(cond, value)];
      host.ArmBegin(cond, value);
      assert Path() == more;
      r, paused, writes := RunPath(s0, apply, stop);
      host.ArmEnd();
      assert Path() + [Lit(cond, value)] == more;
      if r.Failed? {
        ExcusedBefore(Path(), Lit(cond, value));
      }
    }

    /** Look ahead in the arm where `cond == value`: whether the path from `s0` panics before it touches a witness. */
    method RunProbe(cond: nat, value: bool, s0: State<V>) returns (d: bool)
      requires Valid() && host.probing && OkState(s0, memory.syms) && IsCond(memory.syms, cond)
      requires ComesBy(Path() + [Lit(cond, value)], ViewOf(At(s0, memory.Cells())))
      modifies this, host, memory
      ensures Stayed() && (!d ==> log == old(log)) && old(log) <= log
      ensures Owing(Path() + [Lit(cond, value)], if d then Diverged else Ok)
      ensures !d ==> Blinded(Path() + [Lit(cond, value)])
      ensures d ==> Diverges(Steps(code), Path() + [Lit(cond, value)], old(ViewOf(At(s0, memory.Cells()))), log)
      decreases Budget(), 5
    {
      hide RunsTo, Diverges, Narrow, Valuation, Sound, Logged, Found, OwedUnder, Asked, Led, Left, Undo, Journaled,
        OkSyms, OkCells, OkVs, ExactCounts, CellsOf, Down, Excused, OkReqs, Blinded, Tracked;
      ghost var (lit, arms, p) := (Lit(cond, value), looking, Here());
      ghost var more := Path() + [lit];
      ghost var p0 := ViewOf(At(s0, memory.Cells()));
      looking := arms + [lit];
      assert Path() == more;
      var r, end, writes := RunPath(s0, [], 0);
      if r.Ok? {
        ghost var q := ViewOf(At(end, Apply(writes, memory.Cells())));
        FoundNext(Steps(code), start, more, p0, q);
        cause := Ended(more, q);
        EndedBlind(q, s0, end);
      }
      looking := arms;
      assert Path() + [lit] == more;
      d := r.Diverged?;
      if !d {
        log, owed := p.log, old(owed);
        LoggedMore(code, start, log, owed, p.syms, p.reqs, memory.syms, host.reqs);
      }
      OkReqsStable(p.reqs, Path(), p.syms, memory.syms);
    }

    method Probe(cond: nat, value: bool, s0: State<V>) returns (d: bool, ghost look: Look)
      requires Valid() && !host.probing && OkState(s0, memory.syms) && IsCond(memory.syms, cond)
      requires ComesBy(Path() + [Lit(cond, value)], ViewOf(At(s0, memory.Cells())))
      modifies this, host, memory
      ensures Stayed() && host.reqs == old(host.reqs) && (!d ==> log == old(log)) && old(log) <= log
      ensures Owing(Path() + [Lit(cond, value)], if d then Diverged else Ok)
      ensures !d ==> BlindBy(Path() + [Lit(cond, value)], look)
      ensures d ==> Diverges(Steps(code), Path() + [Lit(cond, value)], old(ViewOf(At(s0, memory.Cells()))), log)
      decreases Budget(), 6
    {
      hide RunsTo, Diverges, Narrow, Valuation, Sound, Logged, Found, OwedUnder, Asked, Led, Left, Undo, Journaled,
        OkSyms, OkCells, OkVs, ExactCounts, CellsOf, Excused, OkReqs, OkGuards, BlindBy;
      host.probing := true;
      probeSteps := 0;
      d := RunProbe(cond, value, s0);
      look := Look(cause, steps, probeSteps);
      host.probing := false;
    }

    /** Continue from `t` where `cond` holds and from `e` where not, until at most `stop` labels are left. An arm that a
        look-ahead sees panic is required away. */
    method Fork(cond: nat, t: State<V>, e: State<V>, stop: nat) returns (r: Status, ghost lt: Look, ghost le: Look)
      requires Valid() && IsCond(memory.syms, cond) && OkState(t, memory.syms) && OkState(e, memory.syms)
      requires Bound(e.ctl, stop, t) && Branches(code, from, OutlineOf(t), OutlineOf(e))
      requires SameSize(t, e) && Comes(ViewOf(Either(cond, t, memory.Cells(), e, memory.Cells())))
      modifies this, host, memory
      ensures Came(old(ViewOf(Either(cond, t, memory.Cells(), e, memory.Cells()))), r)
      ensures r.Ok? ==> Met(t, e, stop, st)
      ensures !host.probing && old(pathDepth) >= maxDepth ==> r.Failed?
      ensures !host.probing && old(pathDepth) < maxDepth && !r.Diverged? ==>
        && (Dropped(old(host.reqs), cond, true) || BlindBy(Path() + [Lit(cond, true)], lt))
        && (Dropped(old(host.reqs), cond, false) || BlindBy(Path() + [Lit(cond, false)], le))
      decreases Budget(), 10
    {
      hide Led, Left, Branches, RunsTo, Diverges, Sound, Logged, Narrow, Valuation, Undo, Journaled, Found, OwedUnder,
        Asked, Blinded, Dropped, BlindBy;
      ghost var p := ViewOf(Either(cond, t, memory.Cells(), e, memory.Cells()));
      JournaledRefl(memory.journals, memory.Cells());
      NoReqs(host.reqs, [], Path());
      lt, le := Look(Nothing, 0, 0), Look(Nothing, 0, 0);
      if host.probing {
        r := ForkProbing(cond, t, e);
        return;
      }
      if pathDepth >= maxDepth {
        cause := Deep(Path(), p);
        return Failed, lt, le;
      }
      // An arm that goes straight to a panic, wherever the panic is.
      r, lt, le := ForkPruning(cond, t, e, stop);
    }

    /** A branch on a witness inside a look-ahead panics only if both ways on do. */
    method ForkProbing(cond: nat, t: State<V>, e: State<V>) returns (r: Status)
      requires Valid() && host.probing && IsCond(memory.syms, cond) && OkState(t, memory.syms)
        && OkState(e, memory.syms)
      requires Comes(ViewOf(Either(cond, t, memory.Cells(), e, memory.Cells())))
      modifies this, host, memory
      ensures Came(old(ViewOf(Either(cond, t, memory.Cells(), e, memory.Cells()))), r) && !r.Ok?
      decreases Budget(), 6
    {
      hide RunsTo, Diverges, Narrow, Valuation, Undo, Journaled, Sound, Logged, Advances, Found, OwedUnder, Asked, Led,
        Left, Excused, OkSyms, ExactCounts, CellsOf, OkVs, OkCells, Blinded;
      ghost var p := ViewOf(Either(cond, t, memory.Cells(), e, memory.Cells()));
      JournaledRefl(memory.journals, memory.Cells());
      NoReqs(host.reqs, [], Path());
      FoundArm(Steps(code), start, Path(), p, true);
      var td := RunProbe(cond, true, t);
      OkOriginStable(p.from, p.syms, memory.syms);
      if !td {
        StepFails(Steps(code), Path(), p, Here());
        BlindedBefore(Path(), Lit(cond, true));
        return Failed;
      }
      ghost var (p1, owed1) := (ViewOf(p.from), owed);
      Grows(Steps(code), Path(), p, p1);
      FoundNext(Steps(code), start, Path(), p, p1);
      FoundArm(Steps(code), start, Path(), p1, false);
      var ed := RunProbe(cond, false, e);
      ghost var q := ViewOf(p.from);
      OkOriginStable(p.from, p.syms, q.syms);
      if !ed {
        StepFails(Steps(code), Path(), p, Here());
        BlindedBefore(Path(), Lit(cond, false));
        return Failed;
      }
      Grows(Steps(code), Path(), p, q);
      StillDead(Steps(code), Path(), p, true, p1.log, q);
      StillDead(Steps(code), Path(), p1, false, q.log, q);
      BothDie(Steps(code), Path(), q);
      BothOwed(cond, p1.syms, old(owed), owed1);
      NoReqs(host.reqs, [], Path());
      DivergedAt(Steps(code), Path(), q, Here());
      AdvancesTrans(Steps(code), Path(), p, q, Diverged, Here());
      r := Diverged;
    }

    /** What both arms owe is owed on the way to both. */
    lemma BothOwed(cond: nat, syms: seq<Sym>, owed0: iset<Inputs>, owed1: iset<Inputs>)
      requires OkGuards(Path() + [Lit(cond, true)], syms) && syms <= memory.syms
      requires OwedUnder(Path() + [Lit(cond, true)], syms, owed0, owed1)
      requires OwedUnder(Path() + [Lit(cond, false)], memory.syms, owed1, owed)
      ensures OwedUnder(Path(), memory.syms, owed0, owed)
    {
      OwedStable(Path() + [Lit(cond, true)], syms, memory.syms, owed0, owed1);
      NothingOwed(Path(), memory.syms, owed0);
      OwedFewer(Path(), Lit(cond, true), memory.syms, owed0, owed0, owed1);
      OwedFewer(Path(), Lit(cond, false), memory.syms, owed0, owed1, owed);
    }

    /** Look ahead in both arms for a panic, and go on with what is left. */
    method ForkPruning(cond: nat, t: State<V>, e: State<V>, stop: nat)
      returns (r: Status, ghost lt: Look, ghost le: Look)
      requires Valid() && !host.probing && IsCond(memory.syms, cond)
      requires OkState(t, memory.syms) && OkState(e, memory.syms)
      requires SameSize(t, e) && Bound(e.ctl, stop, t)
      requires Comes(ViewOf(Either(cond, t, memory.Cells(), e, memory.Cells())))
      modifies this, host, memory
      ensures Came(old(ViewOf(Either(cond, t, memory.Cells(), e, memory.Cells()))), r)
      ensures r.Diverged? || Dropped(old(host.reqs), cond, true) || BlindBy(Path() + [Lit(cond, true)], lt)
      ensures r.Diverged? || Dropped(old(host.reqs), cond, false) || BlindBy(Path() + [Lit(cond, false)], le)
      ensures r.Ok? ==> Met(t, e, stop, st)
      decreases Budget(), 9
    {
      hide Led, Left, RunsTo, Diverges, Sound, Logged, Narrow, Valuation, Undo, Journaled, Advances, Found, OwedUnder,
        Asked, Excused, Down, Met, OkSyms, ExactCounts, CellsOf, OkVs, OkCells, OkReqs, Blinded, BlindBy;
      ghost var p := ViewOf(Either(cond, t, memory.Cells(), e, memory.Cells()));
      JournaledRefl(memory.journals, memory.Cells());
      var td, ed;
      ghost var q;
      td, ed, lt, le, q := LookAhead(cond, t, e, p);
      if td && ed {
        // Every way on from here panics.
        BothDie(Steps(code), Path(), q);
        NoReqs(host.reqs, [], Path());
        DivergedAt(Steps(code), Path(), q, Here());
        r := Diverged;
      } else if td != ed {
        r := Prune(cond, td, if td then e else t, [], stop, old(owed), q);
        if r.Ok? {
          DownMet(t, e, stop, if td then e else t, st);
        }
      } else {
        r := Explore(cond, t, e, stop, q);
      }
      AdvancesTrans(Steps(code), Path(), p, q, r, Here());
    }

    /** Look ahead in both arms; `q` is where they start, with what was found out. */
    method LookAhead(cond: nat, t: State<V>, e: State<V>, ghost p: View)
      returns (td: bool, ed: bool, ghost lt: Look, ghost le: Look, ghost q: View)
      requires Valid() && !host.probing && OkView(p) && Comes(p)
      requires p == ViewOf(Either(cond, t, memory.Cells(), e, memory.Cells()))
      modifies this, host, memory
      ensures Stayed() && host.reqs == old(host.reqs)
      ensures q == ViewOf(p.from) && OkView(q) && Comes(q) && Advances(Steps(code), Path(), Ok, p, q)
      ensures td ==> Diverges(Steps(code), Path() + [Lit(cond, true)], Arm(q, true), q.log)
      ensures ed ==> Diverges(Steps(code), Path() + [Lit(cond, false)], Arm(q, false), q.log)
      ensures td || BlindBy(Path() + [Lit(cond, true)], lt)
      ensures ed || BlindBy(Path() + [Lit(cond, false)], le)
      ensures if td && ed then OwedUnder(Path(), memory.syms, old(owed), owed)
              else if td != ed then OwedUnder(Path() + [Lit(cond, td)], memory.syms, old(owed), owed)
              else owed == old(owed)
      decreases Budget(), 8
    {
      hide Led, Left, RunsTo, Diverges, Sound, Logged, Narrow, Valuation, Undo, Journaled, Advances, Found, OwedUnder,
        Asked, OkSyms, ExactCounts, CellsOf, OkVs, OkCells, OkReqs, BlindBy;
      FoundArm(Steps(code), start, Path(), p, true);
      td, lt := Probe(cond, true, t);
      ghost var (p1, owed1) := (ViewOf(p.from), owed);
      OkOriginStable(p.from, p.syms, p1.syms);
      NoReqs(host.reqs, [], Path());
      Grows(Steps(code), Path(), p, p1);
      FoundNext(Steps(code), start, Path(), p, p1);
      FoundArm(Steps(code), start, Path(), p1, false);
      ed, le := Probe(cond, false, e);
      q := ViewOf(p.from);
      OkOriginStable(p.from, p.syms, q.syms);
      Grows(Steps(code), Path(), p, q);
      FoundNext(Steps(code), start, Path(), p, q);
      MoreGuards(Path(), p1, true);
      if td {
        StillDead(Steps(code), Path(), p, true, p1.log, q);
        OwedStable(Path() + [Lit(cond, true)], p1.syms, memory.syms, old(owed), owed1);
      }
      if ed {
        StillDead(Steps(code), Path(), p1, false, q.log, q);
      }
      if td && ed {
        BothOwed(cond, p1.syms, old(owed), owed1);
      }
    }

    /** The first thing required since `reqs` is that arm `dead` is not taken. */
    ghost predicate Dropped(reqs: seq<Req>, cond: nat, dead: bool)
      reads host`reqs, host`guards
    {
      reqs + [Req(host.guards, V(0, cond), !dead)] <= host.reqs
    }

    /** Arm `dead` can only panic, or stray: require the other one, and continue there. */
    method Prune(cond: nat, dead: bool, live: State<V>, writes: Writes, stop: nat, ghost owed0: iset<Inputs>,
                 ghost p: View)
      returns (r: Status)
      requires Valid() && !host.probing && p.from.Either? && p.from.cond == cond && OkView(p) && p == ViewOf(p.from)
        && Comes(p)
      requires OkWrites(writes, |memory.mem|, |memory.syms|)
        && Arm(p, !dead).from == At(live, Apply(writes, memory.Cells()))
      requires Diverges(Steps(code), Path() + [Lit(cond, dead)], Arm(p, dead), p.log)
      requires OwedUnder(Path() + [Lit(cond, dead)], memory.syms, owed0, owed)
      modifies this, host, memory
      ensures Advances(Steps(code), Path(), r, p, Here()) && Moved() && (r.Ok? ==> Down(live, stop, st))
      ensures r.Failed? ==> Excused(Path())
      ensures Dropped(old(host.reqs), cond, dead)
      ensures (r.Ok? ==> owed == owed0) && (r.Diverged? ==> OwedUnder(Path(), memory.syms, owed0, owed))
      decreases Budget(), 4
    {
      hide Led, Left, RunsTo, Diverges, Narrow, Valuation, Undo, Journaled, Advances, Sound, Logged, Found, OwedUnder,
        Asked, Blinded;
      assert Path() == host.guards;
      LoggedPruned(code, start, log, owed0, owed, memory.syms, host.reqs, host.guards, Lit(cond, dead));
      r := host.RequireCond(cond, !dead);
      owed := owed0;
      ghost var q := ViewOf(At(live, Apply(writes, memory.Cells())));
      ArmDies(Steps(code), Path(), p, dead, q);
      FoundNext(Steps(code), start, Path(), p, q);
      r := Resume(live, writes, stop);
      AdvancesOk(Steps(code), Path(), r, q, Here());
      AdvancesTrans(Steps(code), Path(), p, q, r, Here());
    }

    /** Run both arms to where they rejoin. */
    method RunArms(cond: nat, t0: State<V>, e0: State<V>, stop: nat, ghost p0: View)
      returns (rt: Status, t: State<V>, tw: Writes, re: Status, e: State<V>, ew: Writes, ghost owed1: iset<Inputs>,
        ghost p: View)
      requires Valid() && !host.probing && OkView(p0) && Comes(p0)
      requires p0 == ViewOf(Either(cond, t0, memory.Cells(), e0, memory.Cells()))
      modifies this, host, memory
      ensures Stayed() && OkWrites(tw, |memory.mem|, |memory.syms|) && OkWrites(ew, |memory.mem|, |memory.syms|)
      ensures OkView(p) && OkGuards(Path(), p.syms)
      ensures Advances(Steps(code), Path(), if rt.Failed? || re.Failed? then Failed else Ok, p0, p)
      ensures p == ViewOf(p.from)
      ensures !rt.Failed? && !re.Failed? ==> p.from.Either? && p.from.cond == cond
      ensures rt.Ok? && !re.Failed? ==> p.from.t == t && p.from.tc == Apply(tw, memory.Cells()) && Down(t0, stop, t)
      ensures !rt.Failed? && re.Ok? ==> p.from.e == e && p.from.ec == Apply(ew, memory.Cells()) && Down(e0, stop, e)
      ensures rt.Diverged? && !re.Failed? ==> Diverges(Steps(code), Path() + [Lit(cond, true)], Arm(p, true), p.log)
      ensures !rt.Failed? && re.Diverged? ==> Diverges(Steps(code), Path() + [Lit(cond, false)], Arm(p, false), p.log)
      ensures rt.Failed? || re.Failed? ==> Excused(Path())
      ensures !rt.Failed? && !re.Failed? ==> Tracked(p.from)
      ensures rt.Ok? ==> owed1 == old(owed)
      ensures rt.Diverged? ==> OwedUnder(Path() + [Lit(cond, true)], memory.syms, old(owed), owed1)
      ensures re.Ok? ==> owed == owed1
      ensures re.Diverged? ==> OwedUnder(Path() + [Lit(cond, false)], memory.syms, owed1, owed)
      decreases Budget(), 6
    {
      hide Led, Left, RunsTo, Diverges, Narrow, Valuation, Undo, Journaled, Advances, Sound, OkSyms, OkCells, OkState,
        OkVs, ExactCounts, CellsOf, OkReqs, Under, Logged, Found, OwedUnder, OkGuards, Asked, Excused, Blinded;
      FoundArm(Steps(code), start, Path(), p0, true);
      rt, t, tw := RunArm(cond, true, t0, [], stop);
      ghost var a := ViewOf(At(t, Apply(tw, memory.Cells())));
      ghost var p1 := Progress(p0, true, rt, a);
      owed1 := owed;
      ArmProgress(Steps(code), Path(), p0, true, rt, a);
      OkOriginStable(p0.from, p0.syms, memory.syms);
      if rt.Failed? {
        re, e, ew, p := Failed, e0, [], a.(from := p0.from);
        StepFails(Steps(code), Path(), p0, p);
        return;
      }
      FoundNext(Steps(code), start, Path(), p0, p1);
      FoundArm(Steps(code), start, Path(), p1, false);
      MoreGuards(Path(), p1, true);
      re, e, ew := RunArm(cond, false, e0, [], stop);
      ghost var b := ViewOf(At(e, Apply(ew, memory.Cells())));
      ArmProgress(Steps(code), Path(), p1, false, re, b);
      p := if re.Failed? then b.(from := p0.from) else Progress(p1, false, re, b);
      if rt.Diverged? {
        OwedStable(Path() + [Lit(cond, true)], p1.syms, memory.syms, old(owed), owed1);
      }
      if re.Failed? {
        OkOriginStable(p0.from, p0.syms, memory.syms);
        UnderTrans(Path(), p0.reqs, p1.reqs, b.reqs);
        StepFails(Steps(code), Path(), p0, p);
        return;
      }
      AdvancesTrans(Steps(code), Path(), p0, p1, Ok, p);
      if rt.Diverged? {
        AdvancesOk(Steps(code), Path(), Ok, p1, p);
        StillDead(Steps(code), Path(), p1, true, p1.log, p);
      }
    }

    /** Run both arms; go on in one if the other can only panic, and make them meet if not. */
    method Explore(cond: nat, t0: State<V>, e0: State<V>, stop: nat, ghost p0: View) returns (r: Status)
      requires Valid() && !host.probing && OkView(p0) && Comes(p0)
      requires p0 == ViewOf(Either(cond, t0, memory.Cells(), e0, memory.Cells())) && SameSize(t0, e0)
      requires Bound(e0.ctl, stop, t0)
      modifies this, host, memory
      ensures Came(p0, r) && (r.Ok? ==> Met(t0, e0, stop, st))
      decreases Budget(), 8
    {
      hide Led, Left, RunsTo, Diverges, Narrow, Valuation, Undo, Journaled, Advances, Sound, Logged, Found, OwedUnder,
        Asked, Excused, OkSyms, ExactCounts, CellsOf, OkVs, OkCells, Blinded;
      JournaledRefl(memory.journals, memory.Cells());
      var rt, t, tw, re, e, ew;
      ghost var owed1, p;
      rt, t, tw, re, e, ew, owed1, p := RunArms(cond, t0, e0, stop, p0);
      if rt.Failed? || re.Failed? {
        GivesUp(Steps(code), Path(), Failed, p0, p);
        return Failed;
      }
      FoundNext(Steps(code), start, Path(), p0, p);
      MoreGuards(Path(), p, true);
      if rt.Ok? {
        BoundDown(e0.ctl, stop, t0, t);
      }
      if re.Ok? {
        BoundDown(e0.ctl, stop, e0, e);
      }
      if rt.Diverged? && re.Diverged? {
        BothDie(Steps(code), Path(), p);
        BothOwed(cond, memory.syms, old(owed), owed1);
        NoReqs(host.reqs, [], Path());
        DivergedAt(Steps(code), Path(), p, Here());
        r := Diverged;
      } else if rt.Diverged? {
        r := Prune(cond, true, e, ew, stop, old(owed), p);
        if r.Ok? {
          DownMet(t0, e0, stop, e, st);
        }
      } else if re.Diverged? {
        r := Prune(cond, false, t, tw, stop, old(owed), p);
        if r.Ok? {
          DownMet(t0, e0, stop, t, st);
        }
      } else {
        r := Rejoin(cond, t, tw, e, ew, stop, e0.ctl, p);
      }
      AdvancesTrans(Steps(code), Path(), p0, p, r, Here());
    }

    /** Resume the arm that paused deeper until both are at the same depth, then merge. */
    method Rejoin(cond: nat, t0: State<V>, tw0: Writes, e0: State<V>, ew0: Writes, stop: nat, ghost labels: seq<Ctl>,
                  ghost p: View)
      returns (r: Status)
      requires Valid() && !host.probing && OkView(p) && p == ViewOf(p.from) && Comes(p)
      requires p.from == Either(cond, t0, Apply(tw0, memory.Cells()), e0, Apply(ew0, memory.Cells()))
      requires OkWrites(tw0, |memory.mem|, |memory.syms|) && OkWrites(ew0, |memory.mem|, |memory.syms|)
      requires |t0.ctl| <= stop && |e0.ctl| <= stop < |labels| && SameSize(t0, e0)
      requires LeftFrom(labels, t0) && LeftFrom(labels, e0)
      modifies this, host, memory
      ensures Came(p, r)
      ensures r.Ok? ==> |st.ctl| <= stop && SameSize(t0, st) && LeftFrom(labels, st)
      decreases Budget(), 7
    {
      hide Led, Left, RunsTo, Diverges, Sound, Logged, Narrow, Valuation, Undo, Journaled, Advances, Found, OwedUnder,
        Asked, Excused, OkSyms, ExactCounts, CellsOf, OkVs, OkCells, Blinded;
      var (t, tw, e, ew) := (t0, tw0, e0, ew0);
      ghost var q := p;
      AdvancesSelf(Steps(code), Path(), p);
      while |t.ctl| != |e.ctl|
        invariant Stayed() && Advances(Steps(code), Path(), Ok, p, q) && OkView(q) && q == ViewOf(q.from)
          && owed == old(owed)
        invariant Comes(q)
        invariant q.from == Either(cond, t, Apply(tw, memory.Cells()), e, Apply(ew, memory.Cells()))
        invariant OkWrites(tw, |memory.mem|, |memory.syms|) && OkWrites(ew, |memory.mem|, |memory.syms|)
        invariant |t.ctl| <= stop && |e.ctl| <= stop && SameSize(t0, t) && SameSize(t0, e)
        invariant LeftFrom(labels, t) && LeftFrom(labels, e)
        decreases |t.ctl| + |e.ctl|
      {
        var deeper := |t.ctl| > |e.ctl|;
        ghost var q0 := q;
        var s, w;
        r, s, w, q := Deepen(cond, deeper, t, tw, e, ew, q);
        AdvancesTrans(Steps(code), Path(), p, q0, if r.Failed? then Failed else Ok, q);
        if r.Failed? {
          GivesUp(Steps(code), Path(), Failed, p, q);
          JournaledRefl(memory.journals, memory.Cells());
          return;
        }
        FoundNext(Steps(code), start, Path(), q0, q);
        if r.Diverged? {
          // That arm panics further on: the other one is taken.
          if deeper {
            r := Prune(cond, true, e, ew, stop, old(owed), q);
          } else {
            r := Prune(cond, false, t, tw, stop, old(owed), q);
          }
          AdvancesTrans(Steps(code), Path(), p, q, r, Here());
          return;
        }
        LeftPrefix(labels, if deeper then t else e, |(if deeper then e else t).ctl|, s);
        if deeper {
          t, tw := s, w;
        } else {
          e, ew := s, w;
        }
      }
      SameLabels(labels, t, e);
      r := Merge(cond, t, tw, e, ew, labels, q);
      AdvancesTrans(Steps(code), Path(), p, q, r, Here());
    }

    lemma SameLabels(labels: seq<Ctl>, s: State<V>, t: State<V>)
      requires LeftFrom(labels, s) && LeftFrom(labels, t) && |s.ctl| == |t.ctl|
      ensures s.ctl == t.ctl
    {
    }

    /** An arm resumed leaves a label that was below those it left before. */
    lemma LeftPrefix(labels: seq<Ctl>, s: State<V>, stop: nat, s1: State<V>)
      requires LeftFrom(labels, s) && |s.ctl| > stop && Down(s, stop, s1)
      ensures LeftFrom(labels, s1)
    {
      hide Led, Onward;
      assert s.ctl[..stop + 1] == labels[..|s.ctl|][..stop + 1] == labels[..stop + 1];
      BoundDown(labels, stop, s, s1);
    }

    /** Resume the deeper of two paused arms until it is no deeper than the other. */
    method Deepen(cond: nat, deeper: bool, t: State<V>, tw: Writes, e: State<V>, ew: Writes, ghost p: View)
      returns (r: Status, s: State<V>, w: Writes, ghost q: View)
      requires Valid() && !host.probing && OkView(p) && p == ViewOf(p.from) && Comes(p)
      requires p.from == Either(cond, t, Apply(tw, memory.Cells()), e, Apply(ew, memory.Cells()))
      requires OkWrites(tw, |memory.mem|, |memory.syms|) && OkWrites(ew, |memory.mem|, |memory.syms|)
      modifies this, host, memory
      ensures Stayed() && OkWrites(w, |memory.mem|, |memory.syms|) && Owing(Path() + [Lit(cond, deeper)], r)
      ensures OkWrites(tw, |memory.mem|, |memory.syms|) && OkWrites(ew, |memory.mem|, |memory.syms|)
      ensures OkView(q) && q == ViewOf(q.from)
      ensures Advances(Steps(code), Path(), if r.Failed? then Failed else Ok, p, q)
      ensures r.Ok? ==> q.from == WithArm(p, deeper, At(s, Apply(w, memory.Cells())))
      ensures r.Ok? ==> Down(if deeper then t else e, |(if deeper then e else t).ctl|, s)
      ensures if r.Failed? then Excused(Path()) else Tracked(q.from)
      ensures r.Diverged? ==>
        q.from == p.from && Diverges(Steps(code), Path() + [Lit(cond, deeper)], Arm(q, deeper), q.log)
      decreases Budget(), 6
    {
      hide Led, Left, RunsTo, Diverges, Sound, Logged, Narrow, Valuation, Undo, Journaled, Advances, OkSyms, OkCells,
        OkState, OkVs, ExactCounts, CellsOf, OkReqs, Under, Found, OwedUnder, Asked, Blinded;
      FoundArm(Steps(code), start, Path(), p, deeper);
      if deeper {
        r, s, w := RunArm(cond, true, t, tw, |e.ctl|);
      } else {
        r, s, w := RunArm(cond, false, e, ew, |t.ctl|);
      }
      ghost var a := ViewOf(At(s, Apply(w, memory.Cells())));
      ArmProgress(Steps(code), Path(), p, deeper, r, a);
      AdvancesOk(Steps(code), Path() + [Lit(cond, deeper)], r, Arm(p, deeper), a);
      q := if r.Failed? then a.(from := p.from) else Progress(p, deeper, r, a);
      if r.Failed? {
        OkOriginStable(p.from, p.syms, q.syms);
        StepFails(Steps(code), Path(), p, q);
      } else {
        AdvancesOk(Steps(code), Path(), Ok, p, q);
      }
    }

    /** The values of both arms, select by select. */
    method MergeVals(cond: nat, ts: seq<V>, es: seq<V>) returns (vs: seq<V>)
      requires Valid() && IsCond(memory.syms, cond) && |ts| == |es| && OkVs(ts, memory.syms) && OkVs(es, memory.syms)
      modifies memory`syms
      ensures Valid() && old(memory.syms) <= memory.syms && OkVs(vs, memory.syms)
      ensures SelectsVals(old(memory.syms), cond, ts, es, memory.syms, vs)
    {
      vs := [];
      ghost var syms0 := memory.syms;
      while |vs| < |ts|
        invariant |vs| <= |ts| && Valid() && syms0 <= memory.syms && OkVs(vs, memory.syms)
        invariant SelectsVals(syms0, cond, ts[..|vs|], es[..|vs|], memory.syms, vs)
      {
        vs := MergeVal(cond, ts, es, vs, syms0);
      }
      assert ts[..|ts|] == ts && es[..|es|] == es;
    }

    method MergeVal(cond: nat, ts: seq<V>, es: seq<V>, vs: seq<V>, ghost syms0: seq<Sym>) returns (more: seq<V>)
      requires Valid() && IsCond(syms0, cond) && |vs| < |ts| == |es| && OkVs(ts, syms0) && OkVs(es, syms0)
      requires syms0 <= memory.syms && OkVs(vs, memory.syms)
      requires SelectsVals(syms0, cond, ts[..|vs|], es[..|vs|], memory.syms, vs)
      modifies memory`syms
      ensures Valid() && old(memory.syms) <= memory.syms && OkVs(more, memory.syms) && |more| == |vs| + 1
      ensures SelectsVals(syms0, cond, ts[..|more|], es[..|more|], memory.syms, more)
    {
      hide Narrow, Valuation, IsSelect, Logged, Asked;
      var i := |vs|;
      ghost var (p, syms1) := (Here(), memory.syms);
      NarrowStable(syms0, syms1, ts[i]);
      NarrowStable(syms0, syms1, es[i]);
      var v := host.Select(cond, ts[i], es[i]);
      OkVsStable(vs, syms1, memory.syms);
      OkStateStable(st, syms1, memory.syms);
      NoReqs(host.reqs, [], host.guards);
      Grew(p);
      NarrowOk(memory.syms, v);
      NarrowOk(syms0, ts[i]);
      NarrowOk(syms0, es[i]);
      SelectWider(syms0, syms1, cond, ts[i], es[i], memory.syms, memory.syms, v);
      SelectsValsWider(syms0, syms0, cond, ts[..i], es[..i], syms1, memory.syms, vs);
      more := vs + [v];
    }

    /** Both arms are at the same point: every value that differs, in the state or in memory, becomes a select. */
    method Merge(cond: nat, t: State<V>, tw: Writes, e: State<V>, ew: Writes, ghost labels: seq<Ctl>, ghost p: View)
      returns (r: Status)
      requires Valid() && !host.probing && OkView(p) && p == ViewOf(p.from)
      requires p.from == Either(cond, t, Apply(tw, memory.Cells()), e, Apply(ew, memory.Cells()))
      requires OkWrites(tw, |memory.mem|, |memory.syms|) && OkWrites(ew, |memory.mem|, |memory.syms|)
      requires t.ctl == e.ctl && SameSize(t, e) && LeftFrom(labels, t) && LeftFrom(labels, e) && Comes(p)
      modifies this`st, this`cause, memory
      ensures Came(p, r)
      ensures r.Ok? <==> t.pc == e.pc && |t.stack| == |e.stack|
      ensures r.Ok? ==>
        LeftFrom(labels, st) && st.ctl == t.ctl && |st.locals| == |t.locals| && |st.globals| == |t.globals|
    {
      hide Led, Left, RunsTo, Diverges, Sound, Logged, Narrow, Valuation, Undo, Journaled, IsSelect, Selects, OkSyms,
        ExactCounts, CellsOf, Excused;
      JournaledRefl(memory.journals, memory.Cells());
      NoReqs(host.reqs, [], Path());
      if |t.stack| != |e.stack| || |t.locals| != |e.locals| || t.pc != e.pc {
        // The arms do not rejoin.
        cause := Apart(Path(), p);
        ExcusedApart(p, labels, t, e);
        return Failed;
      }
      var stack, locals, globals := MergeStates(cond, t, e, p);
      ghost var (p1, syms1) := (Here(), memory.syms);
      st := State(t.pc, stack, locals, globals, t.ctl);
      memory.MergeMemory(cond, tw, ew);
      Grew(p1);
      MergedView(Steps(code), Path(), p, st, syms1, memory.Cells(), memory.syms);
      OkStateStable(st, syms1, memory.syms);
      r := Ok;
    }

    method MergeStates(cond: nat, t: State<V>, e: State<V>, ghost p: View)
      returns (stack: seq<V>, locals: seq<V>, globals: seq<V>)
      requires Valid() && IsCond(memory.syms, cond) && OkState(t, memory.syms) && OkState(e, memory.syms)
        && p.syms == memory.syms
      requires |t.stack| == |e.stack| && |t.locals| == |e.locals| && |t.globals| == |e.globals|
      modifies memory`syms
      ensures Valid() && p.syms <= memory.syms
      ensures OkVs(stack, memory.syms) && OkVs(locals, memory.syms) && OkVs(globals, memory.syms)
      ensures SelectsVals(p.syms, cond, t.stack, e.stack, memory.syms, stack)
      ensures SelectsVals(p.syms, cond, t.locals, e.locals, memory.syms, locals)
      ensures SelectsVals(p.syms, cond, t.globals, e.globals, memory.syms, globals)
    {
      hide Narrow, Valuation, IsSelect;
      stack := MergeVals(cond, t.stack, e.stack);
      ghost var s1 := memory.syms;
      OkVsStable(t.locals, p.syms, s1);
      OkVsStable(e.locals, p.syms, s1);
      locals := MergeVals(cond, t.locals, e.locals);
      ghost var s2 := memory.syms;
      SelectsValsWider(p.syms, p.syms, cond, t.stack, e.stack, s1, s2, stack);
      SelectsValsWider(p.syms, s1, cond, t.locals, e.locals, s2, s2, locals);
      OkVsStable(stack, s1, s2);
      OkVsStable(t.globals, p.syms, s2);
      OkVsStable(e.globals, p.syms, s2);
      globals := MergeVals(cond, t.globals, e.globals);
      SelectsValsWider(p.syms, p.syms, cond, t.stack, e.stack, s2, memory.syms, stack);
      SelectsValsWider(p.syms, p.syms, cond, t.locals, e.locals, s2, memory.syms, locals);
      SelectsValsWider(p.syms, s2, cond, t.globals, e.globals, memory.syms, memory.syms, globals);
      OkVsStable(stack, s2, memory.syms);
      OkVsStable(locals, s2, memory.syms);
    }
  }
}
