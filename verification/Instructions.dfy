/** One instruction of the symbolic machine follows the concrete instruction. */
module Instructions {
  import opened Words
  import opened SymValues
  import opened SymMemory
  import opened Lowering
  import opened Wasm
  import opened Simulation
  import P = Pointers

  /** One concrete step from `p` gives `q`, unless a new requirement fails: then it traps. */
  ghost predicate StepsTo(step: Stepper, guards: seq<Lit>, p: View, q: View) {
    forall inp ::
      var vals := Valuation(q.syms, inp);
      OnPath(guards, p.reqs, p.syms, inp) ==>
        step(Conc(p, inp)) == if AllBind(q.reqs, |p.reqs|, vals) then Next(Conc(q, inp)) else Trap
  }

  lemma StepAdvances(step: Stepper, guards: seq<Lit>, p: View, q: View)
    requires OkView(q) && OkGuards(guards, q.syms) && q.log == p.log
    requires p.syms <= q.syms && Under(guards, p.reqs, q.reqs) && StepsTo(step, guards, p, q)
    ensures Advances(step, guards, Ok, p, q)
  {
    hide StraysIn, OnPath, Conc, Reaches, Panics, AllBind, OkView, OkGuards;
    forall inp | OnPath(guards, p.reqs, p.syms, inp)
      ensures Follows(step, Conc(p, inp), AllBind(q.reqs, |p.reqs|, Valuation(q.syms, inp)), StraysIn(q.log, inp),
        Conc(q, inp))
    {
      if AllBind(q.reqs, |p.reqs|, Valuation(q.syms, inp)) {
        ReachesStep(step, Conc(p, inp), Conc(q, inp));
      } else {
        PanicsNow(step, Conc(p, inp));
      }
    }
  }

  lemma StepDiverges(step: Stepper, guards: seq<Lit>, p: View, q: View)
    requires OkView(q) && OkGuards(guards, q.syms) && q.log == p.log
    requires p.syms <= q.syms && Under(guards, p.reqs, q.reqs)
    requires forall inp :: step(Conc(p, inp)) == Trap
    ensures Advances(step, guards, Diverged, p, q)
  {
    forall inp
      ensures Panics(step, Conc(p, inp))
    {
      PanicsNow(step, Conc(p, inp));
    }
  }

  lemma StepFails(step: Stepper, guards: seq<Lit>, p: View, q: View)
    requires OkView(q) && OkGuards(guards, q.syms)
    requires p.syms <= q.syms && Under(guards, p.reqs, q.reqs)
    ensures Advances(step, guards, Failed, p, q)
  {
  }

  lemma NoReqs(reqs: seq<Req>, vals: seq<nat>, guards: seq<Lit>)
    ensures AllBind(reqs, |reqs|, vals) && Under(guards, reqs, reqs)
  {
  }

  // ----- moving values and labels -----

  lemma JumpConc(n: nat, st: State<V>, depth: nat, vals: seq<nat>)
    ensures match Jump(n, st, depth)
      case None => Jump(n, ConcState(vals, st), depth).None?
      case Some(next) => Jump(n, ConcState(vals, st), depth) == Some(ConcState(vals, next))
  {
    if Jump(n, st, depth).Some? {
      var c := st.ctl[|st.ctl| - 1 - depth];
      var stack := st.stack[..c.height] + st.stack[|st.stack| - c.arity..];
      var cs := ConcVals(vals, st.stack);
      assert ConcVals(vals, stack) == cs[..c.height] + cs[|cs| - c.arity..];
    }
  }

  lemma ShapeConc(n: nat, op: Op, st: State<V>, vals: seq<nat>)
    ensures match Shape(n, op, st)
      case None => Shape(n, op, ConcState(vals, st)).None?
      case Some(next) => Shape(n, op, ConcState(vals, st)) == Some(ConcState(vals, next))
  {
    if op.LocalSet? || op.LocalTee? || op.GlobalSet? || op.Drop? || op.LocalGet? || op.GlobalGet? {
      MoveConc(n, op, st, vals);
    } else {
      hide ConcVals;
      match op {
        case Br(depth) => JumpConc(n, st, depth, vals);
        case Return => if st.ctl != [] { JumpConc(n, st, |st.ctl| - 1, vals); }
        case _ =>
      }
    }
  }

  lemma MoveConc(n: nat, op: Op, st: State<V>, vals: seq<nat>)
    requires op.LocalSet? || op.LocalTee? || op.GlobalSet? || op.Drop? || op.LocalGet? || op.GlobalGet?
    ensures match Shape(n, op, st)
      case None => Shape(n, op, ConcState(vals, st)).None?
      case Some(next) => Shape(n, op, ConcState(vals, st)) == Some(ConcState(vals, next))
  {
    if st.stack != [] {
      PopConc(vals, st.stack, 1);
      if !op.Drop? && op.i < |st.locals| {
        UpdateConc(vals, st.locals, op.i, st.Top());
      }
      if !op.Drop? && op.i < |st.globals| {
        UpdateConc(vals, st.globals, op.i, st.Top());
      }
    }
    if op.LocalGet? && op.i < |st.locals| {
      PushConc(vals, st.stack, st.locals[op.i]);
    }
    if op.GlobalGet? && op.i < |st.globals| {
      PushConc(vals, st.stack, st.globals[op.i]);
    }
    hide ConcVals;
  }

  lemma PushConc(vals: seq<nat>, vs: seq<V>, v: V)
    ensures ConcVals(vals, vs + [v]) == ConcVals(vals, vs) + [Val(vals, v)]
  {
  }

  lemma PopConc(vals: seq<nat>, vs: seq<V>, n: nat)
    requires n <= |vs|
    ensures ConcVals(vals, vs[..|vs| - n]) == ConcVals(vals, vs)[..|vs| - n]
  {
  }

  lemma UpdateConc(vals: seq<nat>, vs: seq<V>, i: nat, v: V)
    requires i < |vs|
    ensures ConcVals(vals, vs[i := v]) == ConcVals(vals, vs)[i := Val(vals, v)]
  {
  }

  /** Locals, globals and the labels below keep their places. */
  ghost predicate Keeps(st: State<V>, next: State<V>) {
    && |next.locals| == |st.locals| && |next.globals| == |st.globals|
    && (next.ctl <= st.ctl || (|next.ctl| == |st.ctl| + 1 && st.ctl <= next.ctl))
  }

  lemma ShapeKeeps(n: nat, op: Op, st: State<V>, syms: seq<Sym>)
    requires OkState(st, syms) && Shape(n, op, st).Some?
    ensures OkState(Shape(n, op, st).value, syms) && Keeps(st, Shape(n, op, st).value)
  {
  }

  lemma ShapeStep(code: seq<Op>, guards: seq<Lit>, p: View, st: State<V>, next: State<V>)
    requires OkView(p) && OkGuards(guards, p.syms) && p.from.At? && p.from.st == st
    requires st.ctl != [] && st.pc < |code| && |st.stack| >= Operands(code[st.pc])
    requires Moves(code[st.pc]) && Shape(|code|, code[st.pc], st) == Some(next)
    ensures Advances(Steps(code), guards, Ok, p, p.(from := At(next, p.from.cells)))
  {
    var q := p.(from := At(next, p.from.cells));
    ShapeKeeps(|code|, code[st.pc], st, p.syms);
    NoReqs(p.reqs, [], guards);
    forall inp
      ensures Steps(code)(Conc(p, inp)) == Next(Conc(q, inp))
    {
      ShapeConc(|code|, code[st.pc], st, Valuation(p.syms, inp));
    }
    StepAdvances(Steps(code), guards, p, q);
  }

  // ----- computing -----

  lemma PopPush(st: State<V>, k: nat, v: V, syms: seq<Sym>, more: seq<Sym>)
    requires OkState(st, syms) && syms <= more && k <= |st.stack| && Narrow(more, v)
    ensures OkState(st.Pop(k).Push(v), more) && Keeps(st, st.Pop(k).Push(v))
    ensures forall inp ::
      (ConcState(Valuation(more, inp), st.Pop(k).Push(v))
       == ConcState(Valuation(syms, inp), st).Pop(k).Push(Val(Valuation(more, inp), v)))
  {
    OkStateStable(st, syms, more);
    forall inp
      ensures ConcState(Valuation(more, inp), st.Pop(k).Push(v))
           == ConcState(Valuation(syms, inp), st).Pop(k).Push(Val(Valuation(more, inp), v))
    {
      ConcStateStable(st, syms, more, inp);
      PopConc(Valuation(more, inp), st.stack, k);
      PushConc(Valuation(more, inp), st.stack[..|st.stack| - k], v);
    }
  }

  /** `code[st.pc]` pops operands and pushes `v`, worth what the instruction computes. */
  lemma ComputeStep(code: seq<Op>, guards: seq<Lit>, p: View, st: State<V>, q: View, k: nat, v: V)
    requires OkView(p) && p.from.At? && p.from.st == st && st.ctl != [] && k <= |st.stack|
    requires p.syms <= q.syms && OkSyms(q.syms) && Narrow(q.syms, v) && OkGuards(guards, q.syms)
      && OkReqs(q.reqs, q.syms)
    requires q.from == At(st.Pop(k).Push(v), p.from.cells) && Under(guards, p.reqs, q.reqs) && q.log == p.log
    requires forall inp ::
      var vals := Valuation(q.syms, inp);
      OnPath(guards, p.reqs, p.syms, inp) ==>
        CStep(code, Conc(p, inp)) == if AllBind(q.reqs, |p.reqs|, vals)
          then Next(Conc(p, inp).(st := Conc(p, inp).st.Pop(k).Push(Val(vals, v)))) else Trap
    ensures Advances(Steps(code), guards, Ok, p, q)
  {
    PopPush(st, k, v, p.syms, q.syms);
    forall inp
      ensures Conc(q, inp) == Conc(p, inp).(st := Conc(p, inp).st.Pop(k).Push(Val(Valuation(q.syms, inp), v)))
    {
      CellValsStable(Valuation(p.syms, inp), Valuation(q.syms, inp),
        p.from.cells) by { ValuationPrefix(p.syms, q.syms, inp); }
    }
    StepAdvances(Steps(code), guards, p, q);
  }

  /** The machine is at instruction `op`, in state `st`. */
  ghost predicate Ready(code: seq<Op>, guards: seq<Lit>, p: View, st: State<V>, op: Op) {
    && OkView(p) && p.from.At? && p.from.st == st && OkGuards(guards, p.syms)
    && st.ctl != [] && st.pc < |code| && code[st.pc] == op && |st.stack| >= Operands(op)
  }

  /** `q` is `p` with `k` operands replaced by `v`; symbols and requirements may have grown. */
  ghost predicate Computed(guards: seq<Lit>, p: View, st: State<V>, k: nat, v: V, q: View) {
    && k <= |st.stack| && p.from.At?
    && p.syms <= q.syms && OkSyms(q.syms) && Narrow(q.syms, v) && OkGuards(guards, q.syms) && OkReqs(q.reqs, q.syms)
    && q.from == At(st.Pop(k).Push(v), p.from.cells) && Under(guards, p.reqs, q.reqs) && q.log == p.log
  }

  lemma BinStep(code: seq<Op>, guards: seq<Lit>, p: View, st: State<V>, o: Bin, q: View, v: V)
    requires Ready(code, guards, p, st, Binop(o)) && Computed(guards, p, st, 2, v, q)
    requires var k := |st.stack|;
      && WorthUnder(guards, p.syms, BinOf(o, st.stack[k - 2], st.stack[k - 1]), q.syms, v)
      && DivReqs(guards, p.syms, o, st.stack[k - 1], p.reqs, q.syms, q.reqs)
    ensures Advances(Steps(code), guards, Ok, p, q)
  {
    hide Valuation, BinVal;
    forall inp | OnPath(guards, p.reqs, p.syms, inp)
      ensures CStep(code, Conc(p, inp)) == if Traps(o, Val(Valuation(p.syms, inp), st.Top())) then Trap
        else Next(Conc(p, inp).(st := Conc(p, inp).st.Pop(2).Push(Val(Valuation(q.syms, inp), v))))
    {
      BinConc(code, p, st, o, inp);
    }
    forall inp | OnPath(guards, p.reqs, p.syms, inp)
      ensures AllBind(q.reqs, |p.reqs|, Valuation(q.syms, inp)) <==> !Traps(o, Val(Valuation(p.syms, inp), st.Top()))
    {
      TakenStable(guards, p.syms, q.syms, inp);
    }
    hide CStep;
    ComputeStep(code, guards, p, st, q, 2, v);
  }

  lemma BinConc(code: seq<Op>, p: View, st: State<V>, o: Bin, inp: Inputs)
    requires p.from.At? && p.from.st == st && st.ctl != [] && st.pc < |code| && code[st.pc] == Binop(o)
      && |st.stack| >= 2
    ensures var (vals, k, c) := (Valuation(p.syms, inp), |st.stack|, Conc(p, inp));
      CStep(code, c) == if Traps(o, Val(vals, st.stack[k - 1])) then Trap
        else Next(c.(st := c.st.Pop(2).Push(DefVal(BinOf(o, st.stack[k - 2], st.stack[k - 1]), vals, inp))))
  {
    hide Valuation, BinVal;
  }

  lemma BinTraps(code: seq<Op>, guards: seq<Lit>, p: View, st: State<V>, o: Bin, q: View)
    requires Ready(code, guards, p, st, Binop(o)) && OkView(q) && OkGuards(guards, q.syms)
    requires AlwaysTraps(p.syms, o, st.Top())
    requires p.syms <= q.syms && Under(guards, p.reqs, q.reqs) && q.log == p.log
    ensures Advances(Steps(code), guards, Diverged, p, q)
  {
    forall inp
      ensures Steps(code)(Conc(p, inp)) == Trap
    {
      TrapsUnder(p.syms, o, st.Top(), inp);
    }
    StepDiverges(Steps(code), guards, p, q);
  }

  lemma CmpStep(code: seq<Op>, guards: seq<Lit>, p: View, st: State<V>, c: Cmp, q: View, v: V)
    requires Ready(code, guards, p, st, Cmpop(c)) && Computed(guards, p, st, 2, v, q) && q.reqs == p.reqs
    requires var k := |st.stack|; Worth(p.syms, CmpOf(c, st.stack[k - 2], st.stack[k - 1]), q.syms, v)
    ensures Advances(Steps(code), guards, Ok, p, q)
  {
    hide Valuation, CmpVal;
    forall inp
      ensures CStep(code, Conc(p, inp)) == Next(Conc(p,
        inp).(st := Conc(p, inp).st.Pop(2).Push(Val(Valuation(q.syms, inp), v))))
    {
      CmpConc(code, p, st, c, inp);
    }
    hide CStep;
    ComputeStep(code, guards, p, st, q, 2, v);
  }

  lemma CmpConc(code: seq<Op>, p: View, st: State<V>, o: Cmp, inp: Inputs)
    requires p.from.At? && p.from.st == st && st.ctl != [] && st.pc < |code| && code[st.pc] == Cmpop(o)
      && |st.stack| >= 2
    ensures var (vals, k, c) := (Valuation(p.syms, inp), |st.stack|, Conc(p, inp));
      CStep(code, c) == Next(c.(st := c.st.Pop(2).Push(DefVal(CmpOf(o, st.stack[k - 2], st.stack[k - 1]), vals, inp))))
  {
    hide Valuation, CmpVal;
  }

  lemma EqzStep(code: seq<Op>, guards: seq<Lit>, p: View, st: State<V>, q: View, v: V)
    requires Ready(code, guards, p, st, Eqz) && Computed(guards, p, st, 1, v, q) && q.reqs == p.reqs
    requires Worth(p.syms, CmpOf(Eq, st.Top(), C(0)), q.syms, v)
    ensures Advances(Steps(code), guards, Ok, p, q)
  {
    forall inp
      ensures Val(Valuation(q.syms, inp), v) == Bit(Val(Valuation(p.syms, inp), st.Top()) == 0)
    {
    }
    ComputeStep(code, guards, p, st, q, 1, v);
  }

  lemma ConstStep(code: seq<Op>, guards: seq<Lit>, p: View, st: State<V>, x: I32, q: View)
    requires Ready(code, guards, p, st, Const(x)) && q == p.(from := At(st.Push(C(x)), p.from.cells))
    ensures Advances(Steps(code), guards, Ok, p, q)
  {
    assert st.Pop(0) == st;
    forall inp
      ensures Conc(p, inp).st.Pop(0) == Conc(p, inp).st
    {
    }
    ComputeStep(code, guards, p, st, q, 0, C(x));
  }

  /** `v` is the first or the second of three operands, as `k` says. */
  ghost predicate Selected(k: Truth, st: State<V>, syms0: seq<Sym>, syms: seq<Sym>, v: V) {
    && |st.stack| >= 3
    && var n := |st.stack|;
       match k
       case Known(b) => v == if b then st.stack[n - 3] else st.stack[n - 2]
       case OnWire(cond) => IsSelect(syms0, cond, st.stack[n - 3], st.stack[n - 2], syms, v)
  }

  /** `v` is the select of the two operands by the third, which was classified as `k`. */
  lemma SelectStep(code: seq<Op>, guards: seq<Lit>, p: View, st: State<V>, syms1: seq<Sym>, k: Truth, q: View, v: V)
    requires Ready(code, guards, p, st, Select) && Computed(guards, p, st, 3, v, q) && q.reqs == p.reqs
    requires Decides(p.syms, st.Top(), syms1, k) && syms1 <= q.syms
    requires Selected(k, st, syms1, q.syms, v)
    ensures Advances(Steps(code), guards, Ok, p, q)
  {
    var n := |st.stack|;
    var (a, b) := (st.stack[n - 3], st.stack[n - 2]);
    forall inp
      ensures Val(Valuation(q.syms, inp), v)
           == Val(Valuation(p.syms, inp), if Val(Valuation(p.syms, inp), st.Top()) != 0 then a else b)
    {
      NarrowOk(p.syms, a);
      NarrowOk(p.syms, b);
      Stable(p.syms, syms1, a, inp);
      Stable(p.syms, syms1, b, inp);
      Stable(syms1, q.syms, a, inp);
      Stable(syms1, q.syms, b, inp);
    }
    hide Valuation, Decides, IsSelect;
    forall inp
      ensures CStep(code, Conc(p, inp)) == Next(Conc(p,
        inp).(st := Conc(p, inp).st.Pop(3).Push(Val(Valuation(q.syms, inp), v))))
    {
    }
    hide CStep;
    ComputeStep(code, guards, p, st, q, 3, v);
  }

  // ----- loads -----

  lemma LoadConc(p: View, st: State<V>, w: Width, off: nat, syms: seq<Sym>, v: V, inp: Inputs)
    requires p.from.At? && p.from.st == st && |st.stack| >= 1
    requires P.LoadsHeld(p.syms, p.from.cells, st.Top(), off, w.Size(), syms, v)
    ensures CLoad(Conc(p, inp), w, off) == if P.Held(p.syms, st.Top(), off, inp) + w.Size() > |p.from.cells| then Trap
      else Next(Conc(p, inp).(st := Conc(p, inp).st.Pop(1).Push(Val(Valuation(syms, inp), v))))
  {
    hide Valuation, Narrow, OkSyms, OkCells, FromBytes;
    assert P.WordAt(CellVals(Valuation(p.syms, inp), p.from.cells), 0, 0) == FromBytes([]);
  }

  /** The access a load at `p` makes. */
  ghost function LoadOf(guards: seq<Lit>, p: View, w: Width, off: nat): Access
    requires p.from.At? && |p.from.st.stack| >= 1
  {
    Access(guards, p.from.st, p.from.cells, p.syms, p.reqs, p.from.st.Top(), off, w.Size(), false)
  }

  /** `q` is `p` after a load of `v`; symbols and requirements may have grown. */
  ghost predicate Loaded(guards: seq<Lit>, p: View, st: State<V>, w: Width, off: nat, v: V, q: View) {
    && 1 <= |st.stack| && p.from.At? && p.from.st == st
    && p.syms <= q.syms && OkSyms(q.syms) && Narrow(q.syms, v) && OkGuards(guards, q.syms) && OkReqs(q.reqs, q.syms)
    && q.from == At(st.Pop(1).Push(v), p.from.cells) && Under(guards, p.reqs, q.reqs)
    && P.LoadsHeld(p.syms, p.from.cells, st.Top(), off, w.Size(), q.syms, v)
    && P.LeavesBind(guards, p.syms, st.Top(), off, w.Size(), |p.from.cells|, p.reqs, q.syms, q.reqs)
    && q.log == p.log + [LoadOf(guards, p, w, off)]
  }

  lemma LoadStep(code: seq<Op>, guards: seq<Lit>, p: View, st: State<V>, w: Width, off: nat, q: View, v: V)
    requires Ready(code, guards, p, st, Load(w, off)) && Loaded(guards, p, st, w, off, v, q)
    ensures Advances(Steps(code), guards, Ok, p, q)
  {
    hide Valuation, P.LoadsHeld, P.LeavesInBounds, P.Held, P.LeavesBind, StraysIn, OnPath, Follows;
    PopPush(st, 1, v, p.syms, q.syms);
    forall inp | OnPath(guards, p.reqs, p.syms, inp)
      ensures Follows(Steps(code), Conc(p, inp), AllBind(q.reqs, |p.reqs|, Valuation(q.syms, inp)),
        StraysIn(q.log, inp), Conc(q, inp))
    {
      LoadAt(code, guards, p, st, w, off, q, v, inp);
    }
  }

  lemma LoadAt(code: seq<Op>, guards: seq<Lit>, p: View, st: State<V>, w: Width, off: nat, q: View, v: V, inp: Inputs)
    requires Ready(code, guards, p, st, Load(w, off)) && Loaded(guards, p, st, w, off, v, q)
    requires OnPath(guards, p.reqs, p.syms, inp)
    ensures Follows(Steps(code), Conc(p, inp), AllBind(q.reqs, |p.reqs|, Valuation(q.syms, inp)), StraysIn(q.log, inp),
      Conc(q, inp))
  {
    hide Valuation, P.LoadsHeld, P.LeavesInBounds, P.Held, Panics, Reaches, OnPath, StraysIn;
    OnPathTaken(guards, p, inp);
    TakenStable(guards, p.syms, q.syms, inp);
    LoadConc(p, st, w, off, q.syms, v, inp);
    PopPush(st, 1, v, p.syms, q.syms);
    CellValsStable(Valuation(p.syms, inp), Valuation(q.syms, inp),
      p.from.cells) by { ValuationPrefix(p.syms, q.syms, inp); }
    assert CStep(code, Conc(p, inp)) == CLoad(Conc(p, inp), w, off);
    if P.LeavesInBounds(p.syms, st.Top(), off, w.Size(), |p.from.cells|, inp) {
      P.LeavesHeld(p.syms, st.Top(), off, w.Size(), |p.from.cells|, inp);
      ReachesStep(Steps(code), Conc(p, inp), Conc(q, inp));
    } else if P.Held(p.syms, st.Top(), off, inp) + w.Size() > |p.from.cells| {
      PanicsNow(Steps(code), Conc(p, inp));
    } else {
      StraysLast(p.log, LoadOf(guards, p, w, off), inp);
    }
  }

  lemma OnPathTaken(guards: seq<Lit>, p: View, inp: Inputs)
    requires OnPath(guards, p.reqs, p.syms, inp)
    ensures Taken(guards, Valuation(p.syms, inp))
  {
  }

  lemma StraysLast(log: seq<Access>, e: Access, inp: Inputs)
    requires StraysAt(e, inp)
    ensures StraysIn(log + [e], inp)
  {
    assert (log + [e])[|log|] == e;
  }

  /** A refused load: some leaf of the pointer is never in bounds. */
  lemma LoadRefused(code: seq<Op>, guards: seq<Lit>, p: View, st: State<V>, w: Width, off: nat, q: View)
    requires Ready(code, guards, p, st, Load(w, off)) && OkView(q) && OkGuards(guards, q.syms)
    requires p.syms <= q.syms && Under(guards, p.reqs, q.reqs)
    requires q.log == p.log + [LoadOf(guards, p, w, off)]
    requires forall inp :: !P.LeavesInBounds(p.syms, st.Top(), off, w.Size(), |p.from.cells|, inp)
    ensures Advances(Steps(code), guards, Diverged, p, q)
  {
    hide P.LeavesInBounds, P.Held, OnPath, Panics, StraysIn;
    forall inp | OnPath(guards, p.reqs, p.syms, inp)
      ensures Panics(Steps(code), Conc(p, inp)) || StraysIn(q.log, inp)
    {
      if P.Held(p.syms, st.Top(), off, inp) + w.Size() > |p.from.cells| {
        LoadTraps(code, p, st, w, off, inp);
        PanicsNow(Steps(code), Conc(p, inp));
      } else {
        StraysLast(p.log, LoadOf(guards, p, w, off), inp);
      }
    }
  }

  lemma LoadTraps(code: seq<Op>, p: View, st: State<V>, w: Width, off: nat, inp: Inputs)
    requires p.from.At? && p.from.st == st && st.ctl != [] && st.pc < |code| && code[st.pc] == Load(w, off)
      && |st.stack| >= 1
    requires P.Held(p.syms, st.Top(), off, inp) + w.Size() > |p.from.cells|
    ensures Steps(code)(Conc(p, inp)) == Trap
  {
    assert CStep(code, Conc(p, inp)) == CLoad(Conc(p, inp), w, off);
  }

  lemma Unreached(code: seq<Op>, guards: seq<Lit>, p: View, st: State<V>)
    requires Ready(code, guards, p, st, Unreachable)
    ensures Advances(Steps(code), guards, Diverged, p, p)
  {
    NoReqs(p.reqs, [], guards);
    forall inp
      ensures Steps(code)(Conc(p, inp)) == Trap
    {
    }
    StepDiverges(Steps(code), guards, p, p);
  }

  // ----- stores -----

  /** The access a store at `p` makes. */
  ghost function StoreOf(guards: seq<Lit>, p: View, w: Width, off: nat): Access
    requires p.from.At? && |p.from.st.stack| >= 2
  {
    Access(guards, p.from.st, p.from.cells, p.syms, p.reqs, p.from.st.stack[|p.from.st.stack| - 2], off, w.Size(), true)
  }

  /** `q` is `p` after a store. */
  ghost predicate Stored(guards: seq<Lit>, p: View, st: State<V>, w: Width, off: nat, q: View) {
    && 2 <= |st.stack| && p.from.At? && p.from.st == st && q.from.At?
    && p.syms <= q.syms && OkGuards(guards, q.syms) && OkReqs(q.reqs, q.syms) && OkSyms(q.syms)
      && Under(guards, p.reqs, q.reqs)
    && q.from.st == st.Pop(2).(pc := st.pc + 1) && OkCells(q.from.cells, |q.syms|)
    && q.log == p.log + [StoreOf(guards, p, w, off)]
    && var a := st.stack[|st.stack| - 2];
       && P.StoresHeld(p.syms, p.from.cells, a, off, w.Size(), st.Top(), q.syms, q.from.cells)
       && P.InBoundsOnly(guards, p.syms, a, off, w.Size(), |p.from.cells|, p.reqs, q.syms, q.reqs)
  }

  lemma StoreConc(p: View, st: State<V>, w: Width, off: nat, q: View, inp: Inputs)
    requires OkView(p) && p.from.At? && p.from.st == st && |st.stack| >= 2 && q.from.At? && p.syms <= q.syms
    requires q.from.st == st.Pop(2).(pc := st.pc + 1)
    requires var a := st.stack[|st.stack| - 2];
      P.StoresHeld(p.syms, p.from.cells, a, off, w.Size(), st.Top(), q.syms, q.from.cells)
    ensures CStore(Conc(p, inp), w, off)
         == if P.Held(p.syms, st.stack[|st.stack| - 2], off, inp) + w.Size() > |p.from.cells| then Trap
           else Next(Conc(q, inp))
  {
    hide Narrow, OkSyms, OkCells;
    var vals := Valuation(p.syms, inp);
    ConcStateStable(st, p.syms, q.syms, inp);
    PopConc(vals, st.stack, 2);
    PopConc(Valuation(q.syms, inp), st.stack, 2);
  }

  lemma StoreStep(code: seq<Op>, guards: seq<Lit>, p: View, st: State<V>, w: Width, off: nat, q: View)
    requires Ready(code, guards, p, st, Store(w, off)) && Stored(guards, p, st, w, off, q)
    ensures Advances(Steps(code), guards, Ok, p, q)
  {
    hide Valuation, P.StoresHeld, P.Held, Panics, Reaches, StraysIn, OnPath;
    OkStateStable(st, p.syms, q.syms);
    forall inp | OnPath(guards, p.reqs, p.syms, inp)
      ensures Follows(Steps(code), Conc(p, inp), AllBind(q.reqs, |p.reqs|, Valuation(q.syms, inp)),
        StraysIn(q.log, inp), Conc(q, inp))
    {
      OnPathTaken(guards, p, inp);
      TakenStable(guards, p.syms, q.syms, inp);
      StoreConc(p, st, w, off, q, inp);
      assert CStep(code, Conc(p, inp)) == CStore(Conc(p, inp), w, off);
      if P.Held(p.syms, st.stack[|st.stack| - 2], off, inp) + w.Size() > |p.from.cells| {
        PanicsNow(Steps(code), Conc(p, inp));
      } else {
        ReachesStep(Steps(code), Conc(p, inp), Conc(q, inp));
      }
    }
  }

  /** A refused store: it never fits. */
  lemma StoreRefused(code: seq<Op>, guards: seq<Lit>, p: View, st: State<V>, w: Width, off: nat, q: View, a: V)
    requires Ready(code, guards, p, st, Store(w, off)) && OkView(q) && OkGuards(guards, q.syms)
    requires p.syms <= q.syms && Under(guards, p.reqs, q.reqs) && a == st.stack[|st.stack| - 2]
    requires q.log == p.log + [StoreOf(guards, p, w, off)]
    requires forall inp :: !P.StoreFits(p.syms, a, off, w.Size(), |p.from.cells|, inp)
    ensures Advances(Steps(code), guards, Diverged, p, q)
  {
    hide P.LeavesInBounds, P.Held, P.ConcreteSelect, Valuation, Panics, OnPath, StraysIn;
    forall inp | OnPath(guards, p.reqs, p.syms, inp)
      ensures Panics(Steps(code), Conc(p, inp)) || StraysIn(q.log, inp)
    {
      if P.Held(p.syms, a, off, inp) + w.Size() > |p.from.cells| {
        StoreTraps(code, p, st, w, off, inp);
        PanicsNow(Steps(code), Conc(p, inp));
      } else {
        assert !P.StoreFits(p.syms, a, off, w.Size(), |p.from.cells|, inp);
        StraysLast(p.log, StoreOf(guards, p, w, off), inp);
      }
    }
  }

  lemma StoreTraps(code: seq<Op>, p: View, st: State<V>, w: Width, off: nat, inp: Inputs)
    requires p.from.At? && p.from.st == st && st.ctl != [] && st.pc < |code| && code[st.pc] == Store(w, off)
      && |st.stack| >= 2
    requires P.Held(p.syms, st.stack[|st.stack| - 2], off, inp) + w.Size() > |p.from.cells|
    ensures Steps(code)(Conc(p, inp)) == Trap
  {
    assert CStep(code, Conc(p, inp)) == CStore(Conc(p, inp), w, off);
  }

  // ----- branching -----

  lemma EnterIfConc(st: State<V>, op: Op, taken: bool, vals: seq<nat>)
    requires op.If?
    ensures match EnterIf(st, op, taken)
      case None => EnterIf(ConcState(vals, st), op, taken).None?
      case Some(next) => EnterIf(ConcState(vals, st), op, taken) == Some(ConcState(vals, next))
  {
  }

  lemma TargetConc(n: nat, st: State<V>, op: Op, taken: bool, vals: seq<nat>)
    requires (op.If? || op.BrIf?) && |st.stack| > 0
    ensures match Target(n, st, op, taken)
      case None => Target(n, ConcState(vals, st), op, taken).None?
      case Some(next) => Target(n, ConcState(vals, st), op, taken) == Some(ConcState(vals, next))
  {
    PopConc(vals, st.stack, 1);
    if op.If? {
      EnterIfConc(st.Pop(1), op, taken, vals);
    } else if taken {
      JumpConc(n, st.Pop(1), op.depth, vals);
    }
  }

  lemma TargetKeeps(n: nat, st: State<V>, op: Op, taken: bool, syms: seq<Sym>)
    requires (op.If? || op.BrIf?) && |st.stack| > 0 && OkState(st, syms) && Target(n, st, op, taken).Some?
    ensures OkState(Target(n, st, op, taken).value, syms) && Keeps(st, Target(n, st, op, taken).value)
  {
  }

  /** A branch on the condition classified as `k` continues in its target, or in either target by a wire. */
  lemma BranchStep(code: seq<Op>, guards: seq<Lit>, p: View, st: State<V>, op: Op, k: Truth, q: View)
    requires Ready(code, guards, p, st, op) && (op.If? || op.BrIf?)
    requires Decides(p.syms, st.Top(), q.syms, k) && q.reqs == p.reqs && q.log == p.log
    requires OkGuards(guards, q.syms) && OkReqs(q.reqs, q.syms)
    requires match k
      case Known(b) => Target(|code|, st, op, b).Some? && q.from == At(Target(|code|, st, op, b).value, p.from.cells)
      case OnWire(cond) =>
        && Target(|code|, st, op, true).Some? && Target(|code|, st, op, false).Some?
        && q.from == Either(cond, Target(|code|, st, op, true).value, p.from.cells, Target(|code|, st, op, false).value,
          p.from.cells)
    ensures Advances(Steps(code), guards, Ok, p, q)
  {
    NoReqs(p.reqs, [], guards);
    OkStateStable(st, p.syms, q.syms);
    forall b | Target(|code|, st, op, b).Some?
      ensures OkState(Target(|code|, st, op, b).value, q.syms)
    {
      TargetKeeps(|code|, st, op, b, q.syms);
    }
    forall inp
      ensures Steps(code)(Conc(p, inp)) == Next(Conc(q, inp))
    {
      BranchAt(code, guards, p, st, op, k, q, inp);
    }
    StepAdvances(Steps(code), guards, p, q);
  }

  lemma BranchConc(code: seq<Op>, c: Config, op: Op)
    requires c.st.ctl != [] && c.st.pc < |code| && code[c.st.pc] == op && (op.If? || op.BrIf?) && |c.st.stack| >= 1
    ensures CStep(code, c) == Lift(Target(|code|, c.st, op, c.st.Top() != 0), c.mem)
  {
  }

  lemma BranchAt(code: seq<Op>, guards: seq<Lit>, p: View, st: State<V>, op: Op, k: Truth, q: View, inp: Inputs)
    requires Ready(code, guards, p, st, op) && (op.If? || op.BrIf?)
    requires Decides(p.syms, st.Top(), q.syms, k)
    requires match k
      case Known(b) => Target(|code|, st, op, b).Some? && q.from == At(Target(|code|, st, op, b).value, p.from.cells)
      case OnWire(cond) =>
        && Target(|code|, st, op, true).Some? && Target(|code|, st, op, false).Some?
        && q.from == Either(cond, Target(|code|, st, op, true).value, p.from.cells, Target(|code|, st, op, false).value,
          p.from.cells)
    ensures Steps(code)(Conc(p, inp)) == Next(Conc(q, inp))
  {
    var (v0, v1) := (Valuation(p.syms, inp), Valuation(q.syms, inp));
    ValuationPrefix(p.syms, q.syms, inp);
    var taken := Val(v0, st.Top()) != 0;
    assert taken == Truthful(k, v1);
    BranchConc(code, Conc(p, inp), op);
    hide CStep, Decides;
    TargetConc(|code|, st, op, taken, v0);
    TargetKeeps(|code|, st, op, taken, p.syms);
    ConcAtStable(Target(|code|, st, op, taken).value, p.from.cells, p.syms, q.syms, inp);
  }
}
