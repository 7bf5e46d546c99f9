/**
 * The i32 subset of WebAssembly that the branch machine runs, as one function body: what an instruction
 * does to a concrete state (WebAssembly Core Specification 1.0, section 4.4), and running it until the
 * control stack drops to a given height.
 */
module Wasm {
  import opened Words
  import opened SymValues
  import opened SymMemory

  type I32 = x: nat | x < U32

  datatype Width = W8 | W16 | W32 {
    function Size(): (n: nat)
      ensures 1 <= n <= 4
    {
      match this
      case W8 => 1
      case W16 => 2
      case W32 => 4
    }
  }

  /** Decoded instructions; branch targets are code offsets. */
  datatype Op =
    | Unreachable
    | Nop
    | Block(endPc: nat, params: nat, arity: nat)
    | Loop(params: nat)
    | If(elsePc: nat, endPc: nat, params: nat, arity: nat)
    | Else(endPc: nat)
    | End
    | Br(depth: nat)
    | BrIf(depth: nat)
    | Return
    | Drop
    | Select
    | LocalGet(i: nat)
    | LocalSet(i: nat)
    | LocalTee(i: nat)
    | GlobalGet(i: nat)
    | GlobalSet(i: nat)
    | Load(w: Width, off: nat)
    | Store(w: Width, off: nat)
    | Const(c: I32)
    | Eqz
    | Binop(o: Bin)
    | Cmpop(p: Cmp)

  /** A label: where a branch to it jumps, the stack height below its params, the values it carries. */
  datatype Ctl = Ctl(brPc: nat, isLoop: bool, height: nat, arity: nat)

  /** The non-memory state, over symbolic or concrete values. */
  datatype State<T> = State(pc: nat, stack: seq<T>, locals: seq<T>, globals: seq<T>, ctl: seq<Ctl>) {
    function Top(): T
      requires |stack| > 0
    {
      stack[|stack| - 1]
    }

    /** Drop the top `n` values. */
    function Pop(n: nat): State<T>
      requires n <= |stack|
    {
      this.(stack := stack[..|stack| - n])
    }

    function Push(x: T): State<T> { this.(stack := stack + [x], pc := pc + 1) }
  }

  /** Branch to label `depth`: keep what it carries, cut the stack to its height, and jump. Leaving the
      function's own label ends the run (`pc` past the code). */
  function Jump<T>(n: nat, st: State<T>, depth: nat): Option<State<T>> {
    if depth >= |st.ctl| then None
    else
      var idx := |st.ctl| - 1 - depth;
      var c := st.ctl[idx];
      if c.height + c.arity > |st.stack| then None
      else
        var st' := st.(stack := st.stack[..c.height] + st.stack[|st.stack| - c.arity..]);
        Some(if c.isLoop then st'.(ctl := st.ctl[..idx + 1], pc := c.brPc)
             else st'.(ctl := st.ctl[..idx], pc := if idx == 0 then n else c.brPc + 1))
  }

  /** The body of an `if` whose condition was popped. */
  function EnterIf<T>(st: State<T>, op: Op, taken: bool): Option<State<T>>
    requires op.If?
  {
    if |st.stack| < op.params then None
    else
      var elseStart := if op.elsePc != 0 then op.elsePc + 1 else op.endPc;
      Some(st.(ctl := st.ctl + [Ctl(op.endPc, false, |st.stack| - op.params, op.arity)],
               pc := if taken then st.pc + 1 else elseStart))
  }

  /** Where a branching instruction goes when its condition is `taken`. */
  function Target<T>(n: nat, st: State<T>, op: Op, taken: bool): Option<State<T>>
    requires (op.If? || op.BrIf?) && |st.stack| > 0
  {
    if op.If? then EnterIf(st.Pop(1), op, taken)
    else if taken then Jump(n, st.Pop(1), op.depth)
    else Some(st.Pop(1).(pc := st.pc + 1))
  }

  /** The instructions that only move values and labels around (`None`: ill-formed there). */
  function Shape<T>(n: nat, op: Op, st: State<T>): Option<State<T>> {
    var next := st.(pc := st.pc + 1);
    match op
    case Nop => Some(next)
    case Block(endPc, params, arity) =>
      if |st.stack| < params then None
      else Some(next.(ctl := st.ctl + [Ctl(endPc, false, |st.stack| - params, arity)]))
    case Loop(params) =>
      if |st.stack| < params then None
      else Some(next.(ctl := st.ctl + [Ctl(st.pc + 1, true, |st.stack| - params, params)]))
    case Else(endPc) => Some(st.(pc := endPc))
    case End =>
      if st.ctl == [] then None
      else Some(next.(ctl := st.ctl[..|st.ctl| - 1], pc := if |st.ctl| == 1 then n else st.pc + 1))
    case Br(depth) => Jump(n, st, depth)
    case Return => if st.ctl == [] then None else Jump(n, st, |st.ctl| - 1)
    case Drop => if st.stack == [] then None else Some(next.Pop(1))
    case LocalGet(i) => if i < |st.locals| then Some(st.Push(st.locals[i])) else None
    case LocalSet(i) =>
      if st.stack != [] && i < |st.locals| then Some(next.(locals := st.locals[i := st.Top()]).Pop(1)) else None
    case LocalTee(i) =>
      if st.stack != [] && i < |st.locals| then Some(next.(locals := st.locals[i := st.Top()])) else None
    case GlobalGet(i) => if i < |st.globals| then Some(st.Push(st.globals[i])) else None
    case GlobalSet(i) =>
      if st.stack != [] && i < |st.globals| then Some(next.(globals := st.globals[i := st.Top()]).Pop(1)) else None
    case _ => None
  }

  /** The instructions `Shape` handles. */
  predicate Moves(op: Op) {
    match op
    case Nop => true
    case Block(_, _, _) => true
    case Loop(_) => true
    case Else(_) => true
    case End => true
    case Br(_) => true
    case Return => true
    case Drop => true
    case LocalGet(_) => true
    case LocalSet(_) => true
    case LocalTee(_) => true
    case GlobalGet(_) => true
    case GlobalSet(_) => true
    case _ => false
  }

  /** How many operands an instruction handled below takes. */
  function Operands(op: Op): nat {
    match op
    case Eqz => 1
    case Binop(_) => 2
    case Cmpop(_) => 2
    case Select => 3
    case If(_, _, _, _) => 1
    case BrIf(_) => 1
    case Load(_, _) => 1
    case Store(_, _) => 2
    case _ => 0
  }

  // ----- concrete execution -----

  datatype Config = Config(st: State<nat>, mem: seq<Byte>)

  datatype StepResult = Next(c: Config) | Trap | Stuck

  function Lift(s: Option<State<nat>>, mem: seq<Byte>): StepResult {
    match s
    case Some(st) => Next(Config(st, mem))
    case None => Stuck
  }

  function CLoad(c: Config, w: Width, off: nat): StepResult
    requires |c.st.stack| >= 1
  {
    var addr := c.st.Top() + off;
    if addr + w.Size() > |c.mem| then Trap
    else Next(c.(st := c.st.Pop(1).Push(FromBytes(c.mem[addr..addr + w.Size()]))))
  }

  function CStore(c: Config, w: Width, off: nat): StepResult
    requires |c.st.stack| >= 2
  {
    var addr := c.st.stack[|c.st.stack| - 2] + off;
    if addr + w.Size() > |c.mem| then Trap
    else Next(Config(c.st.Pop(2).(pc := c.st.pc + 1), Overwrite(c.mem, addr, ToBytes(c.st.Top(), w.Size()))))
  }

  function CStep(code: seq<Op>, c: Config): StepResult {
    var st := c.st;
    if st.ctl == [] || st.pc >= |code| || |st.stack| < Operands(code[st.pc]) then Stuck
    else
      var op := code[st.pc];
      var k := |st.stack|;
      match op
      case Unreachable => Trap
      case Const(x) => Next(c.(st := st.Push(x)))
      case Eqz => Next(c.(st := st.Pop(1).Push(Bit(st.stack[k - 1] == 0))))
      case Binop(o) =>
        if Traps(o, st.stack[k - 1]) then Trap
        else Next(c.(st := st.Pop(2).Push(BinVal(o, st.stack[k - 2], st.stack[k - 1]))))
      case Cmpop(p) => Next(c.(st := st.Pop(2).Push(Bit(CmpVal(p, st.stack[k - 2], st.stack[k - 1])))))
      case Select =>
        Next(c.(st := st.Pop(3).Push(if st.stack[k - 1] != 0 then st.stack[k - 3] else st.stack[k - 2])))
      case If(_, _, _, _) => Lift(Target(|code|, st, op, st.Top() != 0), c.mem)
      case BrIf(_) => Lift(Target(|code|, st, op, st.Top() != 0), c.mem)
      case Load(w, off) => CLoad(c, w, off)
      case Store(w, off) => CStore(c, w, off)
      case _ => Lift(Shape(|code|, op, st), c.mem)
  }

  // ----- runs -----

  /** What one instruction does, with the code fixed. */
  type Stepper = Config -> StepResult

  function Steps(code: seq<Op>): Stepper { c => CStep(code, c) }

  /** Exactly `n` instructions. */
  function Walk(step: Stepper, c: Config, n: nat): Option<Config>
    decreases n
  {
    if n == 0 then Some(c)
    else match step(c)
      case Next(d) => Walk(step, d, n - 1)
      case _ => None
  }

  ghost predicate Reaches(step: Stepper, c: Config, d: Config) {
    exists n: nat :: Walk(step, c, n) == Some(d)
  }

  /** The run from `c` traps. */
  ghost predicate Panics(step: Stepper, c: Config) {
    exists d :: Reaches(step, c, d) && step(d) == Trap
  }

  /** The run from `c` returns from the function, in `d`. */
  ghost predicate Returns(step: Stepper, c: Config, d: Config) {
    Reaches(step, c, d) && step(d) == Stuck && d.st.ctl == []
  }

  lemma {:induction false} WalkAdd(step: Stepper, c: Config, m: nat, n: nat)
    requires Walk(step, c, m).Some?
    ensures Walk(step, c, m + n) == Walk(step, Walk(step, c, m).value, n)
    decreases m
  {
    if m > 0 {
      WalkAdd(step, step(c).c, m - 1, n);
    }
  }

  lemma ReachesTrans(step: Stepper, c: Config, d: Config, e: Config)
    requires Reaches(step, c, d) && Reaches(step, d, e)
    ensures Reaches(step, c, e)
  {
    var m: nat :| Walk(step, c, m) == Some(d);
    var n: nat :| Walk(step, d, n) == Some(e);
    WalkAdd(step, c, m, n);
    assert Walk(step, c, m + n) == Some(e);
  }

  lemma ReachesSelf(step: Stepper, c: Config)
    ensures Reaches(step, c, c)
  {
    assert Walk(step, c, 0) == Some(c);
  }

  lemma ReachesStep(step: Stepper, c: Config, d: Config)
    requires step(c) == Next(d)
    ensures Reaches(step, c, d)
  {
    assert Walk(step, d, 0) == Some(d);
    assert Walk(step, c, 1) == Some(d);
  }

  lemma PanicsLater(step: Stepper, c: Config, d: Config)
    requires Reaches(step, c, d) && Panics(step, d)
    ensures Panics(step, c)
  {
    var e :| Reaches(step, d, e) && step(e) == Trap;
    ReachesTrans(step, c, d, e);
  }

  lemma PanicsNow(step: Stepper, c: Config)
    requires step(c) == Trap
    ensures Panics(step, c)
  {
    ReachesSelf(step, c);
  }

  /** Execution is deterministic: it ends in one way only. */
  lemma EndsOnce(step: Stepper, c: Config, d: Config, e: Config)
    requires Reaches(step, c, d) && !step(d).Next?
    requires Reaches(step, c, e) && !step(e).Next?
    ensures d == e
  {
    var m: nat :| Walk(step, c, m) == Some(d);
    var n: nat :| Walk(step, c, n) == Some(e);
    if m <= n {
      WalkAdd(step, c, m, n - m);
    } else {
      WalkAdd(step, c, n, m - n);
    }
  }

  lemma ReturnsOrPanics(step: Stepper, c: Config, d: Config)
    requires Returns(step, c, d)
    ensures !Panics(step, c)
    ensures forall e :: Returns(step, c, e) ==> e == d
  {
    forall e | Reaches(step, c, e) && !step(e).Next?
      ensures e == d
    {
      EndsOnce(step, c, d, e);
    }
  }
}
