/**
 * The peephole pass: straight-line runs rewritten in place into fused instructions. The rest of a run keeps its
 * instructions and is skipped, so every code offset, a branch target or not, still does what it did.
 */
module Peephole {
  import opened Words
  import Fields
  import opened SymValues
  import opened SymMemory
  import opened Wasm

  datatype Kind = Narrow(w: Width) | I64 {
    function Size(): (n: nat)
      ensures 1 <= n <= 8
    {
      if I64? then 8 else w.Size()
    }
  }

  /** Instructions, plain and fused; `Plain` carries no load or store. */
  datatype Op =
    | Plain(op: Wasm.Op)
    | Load(k: Kind, off: nat)
    | Store(k: Kind, off: nat)
    | Call(f: nat)
    | LoadL(x: nat, k: Kind, off: nat)
    | StoreLL(a: nat, v: nat, k: Kind, off: nat)
    | CopyLL(a: nat, x: nat, k1: Kind, k2: Kind, o1: nat, o2: nat)
    | CopyN(a: nat, x: nat, o1: nat, o2: nat, n: nat, desc: bool)
    | AddLC(x: nat, c: I32)
    | SpSub(g: nat, c: I32, l: nat)
    | CallL(f: nat, args: seq<nat>)

  predicate Unfused(op: Op) {
    op.Plain? || op.Load? || op.Store? || op.Call?
  }

  /** What a call does, its arguments on the stack. */
  type Callee = (nat, Config) -> StepResult

  // ----- one instruction -----

  function PlainOps(code: seq<Op>): (r: seq<Wasm.Op>)
    ensures |r| == |code| && forall i :: 0 <= i < |code| ==> r[i] == if code[i].Plain? then code[i].op else Nop
  {
    seq(|code|, i requires 0 <= i < |code| => if code[i].Plain? then code[i].op else Nop)
  }

  /** `size` bytes at `addr`; an i32 or i64 with eight bytes there is read as a 64-bit word and cut. */
  function LoadWord(mem: seq<Byte>, addr: nat, k: Kind): Option<nat> {
    if (k == I64 || k == Narrow(W32)) && addr + 8 <= |mem| then
      var w := FromBytes(mem[addr..addr + 8]);
      Some(if k == I64 then w else w % U32)
    else if addr + k.Size() > |mem| then None
    else Some(FromBytes(mem[addr..addr + k.Size()]))
  }

  function CopyWord(mem: seq<Byte>, from: nat, to: nat, k1: Kind, k2: Kind): Option<seq<Byte>> {
    match LoadWord(mem, from, k1)
    case None => None
    case Some(v) => if to + k2.Size() > |mem| then None else Some(Overwrite(mem, to, ToBytes(v, k2.Size())))
  }

  /** Offset `j` words on. */
  function Offset(o: nat, j: nat, desc: bool): int {
    if desc then o - 8 * j else o + 8 * j
  }

  /** Words `j` to `n`, one by one. */
  function CopyWords(mem: seq<Byte>, x: nat, a: nat, o1: nat, o2: nat, j: nat, n: nat, desc: bool): Option<seq<Byte>>
    decreases n - j
  {
    if j >= n then Some(mem)
    else if Offset(o1, j, desc) < 0 || Offset(o2, j, desc) < 0 then None
    else match CopyWord(mem, x + Offset(o1, j, desc), a + Offset(o2, j, desc), I64, I64)
      case None => None
      case Some(next) => CopyWords(next, x, a, o1, o2, j + 1, n, desc)
  }

  /** A run of words: one block copy when nothing can tell the difference. */
  function CopyRun(mem: seq<Byte>, x: nat, a: nat, o1: nat, o2: nat, n: nat, desc: bool): Option<seq<Byte>>
    requires n > 0 && Offset(o1, n - 1, desc) >= 0 && Offset(o2, n - 1, desc) >= 0
  {
    var (src, dst) := Ends(x, a, o1, o2, n, desc);
    if Clear(mem, src, dst, n) then Some(Overwrite(mem, dst, mem[src..src + 8 * n]))
    else CopyWords(mem, x, a, o1, o2, 0, n, desc)
  }

  function PushAll(c: Config, args: seq<nat>): Option<Config>
    decreases |args|
  {
    if args == [] then Some(c)
    else if args[0] >= |c.st.locals| then None
    else PushAll(Stacked(c, c.st.stack + [c.st.locals[args[0]]], 1), args[1..])
  }

  function Stored(c: Config, mem: Option<seq<Byte>>, skip: nat): StepResult {
    match mem
    case None => Trap
    case Some(m) => Next(Config(c.st.(pc := c.st.pc + skip), m))
  }

  /** A fused instruction. */
  function Fast(env: Callee, op: Op, c: Config): StepResult {
    var st := c.st;
    match op
    case LoadL(x, kind, off) =>
      if x >= |st.locals| then Stuck
      else (match LoadWord(c.mem, st.locals[x] + off, kind)
            case None => Trap
            case Some(v) => Next(c.(st := st.(stack := st.stack + [v], pc := st.pc + 2))))
    case StoreLL(a, v, kind, off) =>
      if a >= |st.locals| || v >= |st.locals| then Stuck
      else Stored(c, if st.locals[a] + off + kind.Size() > |c.mem| then None
                     else Some(Overwrite(c.mem, st.locals[a] + off, ToBytes(st.locals[v], kind.Size()))), 3)
    case CopyLL(a, x, k1, k2, o1, o2) =>
      if a >= |st.locals| || x >= |st.locals| then Stuck
      else Stored(c, CopyWord(c.mem, st.locals[x] + o1, st.locals[a] + o2, k1, k2), 4)
    case CopyN(a, x, o1, o2, n, desc) =>
      if a >= |st.locals| || x >= |st.locals| || n == 0 || Offset(o1, n - 1, desc) < 0 || Offset(o2, n - 1, desc) < 0
        then Stuck
      else Stored(c, CopyRun(c.mem, st.locals[x], st.locals[a], o1, o2, n, desc), 4 * n)
    case AddLC(x, v) =>
      if x >= |st.locals| then Stuck
      else Next(c.(st := st.(stack := st.stack + [(st.locals[x] % U32 + v) % U32], pc := st.pc + 3)))
    case SpSub(g, v, l) =>
      if g >= |st.globals| || l >= |st.locals| then Stuck
      else
        var r := (st.globals[g] - v) % U32;
        Next(c.(st := st.(locals := st.locals[l := r], globals := st.globals[g := r], pc := st.pc + 5)))
    case CallL(f, args) =>
      (match PushAll(c, args)
       case None => Stuck
       case Some(d) => env(f, d))
    case _ => Stuck
  }

  function Step(env: Callee, code: seq<Op>, c: Config): StepResult {
    var (st, k) := (c.st, |c.st.stack|);
    if st.ctl == [] || st.pc >= |code| then Stuck
    else match code[st.pc]
      case Plain(op) => CStep(PlainOps(code), c)
      case Load(kind, off) =>
        if k < 1 then Stuck
        else if st.stack[k - 1] + off + kind.Size() > |c.mem| then Trap
        else
          var addr := st.stack[k - 1] + off;
          Next(c.(st := st.Pop(1).Push(FromBytes(c.mem[addr..addr + kind.Size()]))))
      case Store(kind, off) =>
        if k < 2 then Stuck
        else if st.stack[k - 2] + off + kind.Size() > |c.mem| then Trap
        else Next(Config(st.Pop(2).(pc := st.pc + 1), Overwrite(c.mem, st.stack[k - 2] + off,
          ToBytes(st.stack[k - 1], kind.Size()))))
      case Call(f) => env(f, c)
      case _ => Fast(env, code[st.pc], c)
  }

  /** The fused language contains the machine's own: on a function body without fused instructions, calls or i64
      accesses the steps are those of the machine. */
  function FromWasm(code: seq<Wasm.Op>): (r: seq<Op>)
    ensures |r| == |code|
    ensures forall i :: 0 <= i < |code| ==> r[i] == Embedded(code[i])
  {
    seq(|code|, i requires 0 <= i < |code| => Embedded(code[i]))
  }

  function Embedded(op: Wasm.Op): Op {
    match op
    case Load(w, off) => Op.Load(Narrow(w), off)
    case Store(w, off) => Op.Store(Narrow(w), off)
    case _ => Plain(op)
  }

  lemma StepIsWasm(env: Callee, code: seq<Wasm.Op>, c: Config)
    ensures Step(env, FromWasm(code), c) == CStep(code, c)
  {
  }

  // ----- what a run of instructions does -----

  function Runs(env: Callee, code: seq<Op>): Stepper {
    (c: Config) => Step(env, code, c)
  }

  /** Stepping from `c`, at least once, comes to `r`. */
  ghost predicate Does(step: Stepper, c: Config, r: StepResult) {
    match r
    case Next(d) => exists k: nat :: k > 0 && Walk(step, c, k) == Some(d)
    case Trap => Panics(step, c)
    case Stuck =>
      exists d :: Reaches(step, c, d) && step(d) == Stuck
                  && (c.st.ctl == [] ==> d == c) && (c.st.ctl != [] ==> d.st.ctl != [])
  }

  lemma DoesStep(step: Stepper, c: Config)
    ensures Does(step, c, step(c))
  {
    match step(c)
    case Next(d) => assert Walk(step, c, 1) == Some(d) by { ReachesStep(step, c, d); assert Walk(step, d, 0) == Some(d);
      }
    case Trap => PanicsNow(step, c);
    case Stuck => ReachesSelf(step, c);
  }

  /** One step, then more. */
  lemma DoesThen(step: Stepper, c: Config, d: Config, r: StepResult)
    requires step(c) == Next(d) && c.st.ctl != [] && d.st.ctl != [] && Does(step, d, r)
    ensures Does(step, c, r)
  {
    ReachesStep(step, c, d);
    match r
    case Next(e) =>
      var k: nat :| k > 0 && Walk(step, d, k) == Some(e);
      assert Walk(step, c, k + 1) == Some(e);
    case Trap => PanicsLater(step, c, d);
    case Stuck =>
      var e :| Reaches(step, d, e) && step(e) == Stuck && e.st.ctl != [];
      ReachesTrans(step, c, d, e);
  }

  /** `fast` takes several steps of `step` at a time. */
  ghost predicate Speeds(step: Stepper, fast: Stepper) {
    forall c :: Does(step, c, fast(c))
  }

  lemma {:induction false} FastReaches(step: Stepper, fast: Stepper, c: Config, d: Config, n: nat)
    requires Speeds(step, fast) && Walk(fast, c, n) == Some(d)
    ensures Reaches(step, c, d)
    decreases n
  {
    if n == 0 {
      ReachesSelf(step, c);
    } else {
      var e := fast(c).c;
      assert Does(step, c, fast(c));
      FastReaches(step, fast, e, d, n - 1);
      ReachesTrans(step, c, e, d);
    }
  }

  /** If the plain run ends after `n` steps, the fused run ends too, in the same way. */
  lemma {:induction false} FastEnds(step: Stepper, fast: Stepper, c: Config, d: Config, n: nat)
    requires Speeds(step, fast) && Walk(step, c, n) == Some(d) && !step(d).Next?
    requires step(d).Trap? || d.st.ctl == []
    ensures step(d).Trap? ==> Panics(fast, c)
    ensures step(d).Stuck? ==> Reaches(fast, c, d) && fast(d) == Stuck
    decreases n
  {
    assert Does(step, c, fast(c));
    assert Reaches(step, c, d);
    match fast(c)
    case Trap =>
      var e :| Reaches(step, c, e) && step(e) == Trap;
      EndsOnce(step, c, d, e);
      PanicsNow(fast, c);
    case Stuck =>
      var e :| Reaches(step, c, e) && step(e) == Stuck && (c.st.ctl == [] ==> e == c)
        && (c.st.ctl != [] ==> e.st.ctl != []);
      EndsOnce(step, c, d, e);
      ReachesSelf(fast, c);
    case Next(e) =>
      var k: nat :| k > 0 && Walk(step, c, k) == Some(e);
      if k > n {
        WalkAdd(step, c, n, k - n);
        assert false;
      }
      WalkAdd(step, c, k, n - k);
      FastEnds(step, fast, e, d, n - k);
      ReachesStep(fast, c, e);
      if step(d).Trap? {
        PanicsLater(fast, c, e);
      } else {
        ReachesTrans(fast, c, e, d);
      }
  }

  /** Fusing changes neither whether a run panics nor what it returns. */
  lemma SpeedsSame(step: Stepper, fast: Stepper, c: Config)
    requires Speeds(step, fast)
    ensures Panics(fast, c) <==> Panics(step, c)
    ensures forall d :: Returns(fast, c, d) <==> Returns(step, c, d)
  {
    if Panics(fast, c) {
      var d :| Reaches(fast, c, d) && fast(d) == Trap;
      var n: nat :| Walk(fast, c, n) == Some(d);
      FastReaches(step, fast, c, d, n);
      assert Does(step, d, fast(d));
      PanicsLater(step, c, d);
    }
    if Panics(step, c) {
      var d :| Reaches(step, c, d) && step(d) == Trap;
      var n: nat :| Walk(step, c, n) == Some(d);
      FastEnds(step, fast, c, d, n);
    }
    forall d
      ensures Returns(fast, c, d) <==> Returns(step, c, d)
    {
      if Returns(fast, c, d) {
        var n: nat :| Walk(fast, c, n) == Some(d);
        FastReaches(step, fast, c, d, n);
        assert Does(step, d, fast(d));
      }
      if Returns(step, c, d) {
        var n: nat :| Walk(step, c, n) == Some(d);
        FastEnds(step, fast, c, d, n);
      }
    }
  }

  // ----- what a fused instruction stands for -----

  ghost predicate IsAt(code: seq<Op>, i: nat, op: Op) {
    i < |code| && code[i] == op
  }

  ghost predicate GetAt(code: seq<Op>, i: nat, x: nat) {
    IsAt(code, i, Plain(LocalGet(x)))
  }

  ghost predicate CopyAt(code: seq<Op>, i: nat, a: nat, x: nat, k1: Kind, k2: Kind, o1: int, o2: int) {
    && o1 >= 0 && o2 >= 0
    && GetAt(code, i, a) && GetAt(code, i + 1, x) && IsAt(code, i + 2, Op.Load(k1, o1))
      && IsAt(code, i + 3, Op.Store(k2, o2))
  }

  ghost predicate CopiesAt(code: seq<Op>, i: nat, a: nat, x: nat, o1: nat, o2: nat, n: nat, desc: bool) {
    forall j :: 0 <= j < n ==> CopyAt(code, i + 4 * j, a, x, I64, I64, Offset(o1, j, desc), Offset(o2, j, desc))
  }

  /** The run at `i` that `op` replaces. */
  ghost predicate Stands(code: seq<Op>, i: nat, op: Op) {
    match op
    case LoadL(x, k, off) => GetAt(code, i, x) && IsAt(code, i + 1, Op.Load(k, off))
    case StoreLL(a, v, k, off) => GetAt(code, i, a) && GetAt(code, i + 1, v) && IsAt(code, i + 2, Op.Store(k, off))
    case CopyLL(a, x, k1, k2, o1, o2) => CopyAt(code, i, a, x, k1, k2, o1, o2)
    case CopyN(a, x, o1, o2, n, desc) =>
      n > 0 && CopiesAt(code, i, a, x, o1, o2, n, desc)
    case AddLC(x, c) => GetAt(code, i, x) && IsAt(code, i + 1, Plain(Const(c))) && IsAt(code, i + 2, Plain(Binop(Add)))
    case SpSub(g, c, l) =>
      && IsAt(code, i, Plain(GlobalGet(g))) && IsAt(code, i + 1, Plain(Const(c)))
        && IsAt(code, i + 2, Plain(Binop(Sub)))
      && IsAt(code, i + 3, Plain(LocalTee(l))) && IsAt(code, i + 4, Plain(GlobalSet(g)))
    case CallL(f, args) =>
      args != [] && (forall j :: 0 <= j < |args| ==> GetAt(code, i + j, args[j])) && IsAt(code, i + |args|, Call(f))
    case _ => false
  }

  /** `now` is `code` with some slots replaced by fused instructions that stand for the run there. */
  ghost predicate Fused(code: seq<Op>, now: seq<Op>) {
    |now| == |code| && forall i :: 0 <= i < |code| ==> now[i] == code[i] || Stands(code, i, now[i])
  }

  // ----- each fused instruction does what its run does -----

  lemma GetStep(env: Callee, code: seq<Op>, c: Config, x: nat)
    requires c.st.ctl != [] && GetAt(code, c.st.pc, x)
    ensures Step(env, code, c) == if x < |c.st.locals| then Next(Stacked(c, c.st.stack + [c.st.locals[x]], 1))
      else Stuck
  {
  }

  /** Both locals read, or stuck before. */
  lemma TwoGets(env: Callee, code: seq<Op>, c: Config, a: nat, v: nat)
    requires c.st.ctl != [] && GetAt(code, c.st.pc, a) && GetAt(code, c.st.pc + 1, v)
    requires a >= |c.st.locals| || v >= |c.st.locals|
    ensures Does(Runs(env, code), c, Stuck)
  {
    GetStep(env, code, c, a);
    DoesStep(Runs(env, code), c);
    if a < |c.st.locals| {
      var d := Stacked(c, c.st.stack + [c.st.locals[a]], 1);
      GetStep(env, code, d, v);
      DoesStep(Runs(env, code), d);
      DoesThen(Runs(env, code), c, d, Stuck);
    }
  }

  lemma {:induction false} LowBytes(bs: seq<Byte>, n: nat)
    requires n <= |bs|
    ensures FromBytes(bs) % Pow256(n) == FromBytes(bs[..n])
  {
    if n > 0 {
      assert bs[..n][1..] == bs[1..][..n - 1];
      LowBytes(bs[1..], n - 1);
      CutWord(bs[0], FromBytes(bs[1..]), Pow256(n - 1));
    } else {
      OneModulus(FromBytes(bs));
    }
  }

  lemma OneModulus(x: nat)
    ensures x % 1 == 0
  {
  }

  lemma CutWord(b: Byte, x: nat, w: nat)
    requires w > 0
    ensures (b + 256 * x) % (256 * w) == b + 256 * (x % w)
  {
    var (q, r) := (x / w, x % w);
    assert b + 256 * x == q * (256 * w) + (b + 256 * r);
    Fields.ModUnique(b + 256 * x, 256 * w, q, b + 256 * r);
  }

  /** The wide read is the read of the kind's own bytes. */
  lemma LoadWordIs(mem: seq<Byte>, addr: nat, k: Kind)
    ensures LoadWord(mem, addr, k)
         == if addr + k.Size() > |mem| then None else Some(FromBytes(mem[addr..addr + k.Size()]))
  {
    if (k == I64 || k == Narrow(W32)) && addr + 8 <= |mem| {
      var bs := mem[addr..addr + 8];
      assert bs[..4] == mem[addr..addr + 4];
      LowBytes(bs, 4);
      assert Pow256(4) == U32;
    }
  }

  /** `c` with another stack, `n` instructions on. */
  function Stacked(c: Config, stack: seq<nat>, n: nat): Config {
    c.(st := c.st.(stack := stack, pc := c.st.pc + n))
  }

  lemma LoadStep(env: Callee, code: seq<Op>, c: Config, k: Kind, off: nat, stack: seq<nat>, a: nat)
    requires c.st.ctl != [] && IsAt(code, c.st.pc, Op.Load(k, off)) && c.st.stack == stack + [a]
    ensures Step(env, code, c) ==
      match LoadWord(c.mem, a + off, k)
      case None => Trap
      case Some(v) => Next(Stacked(c, stack + [v], 1))
  {
    LoadWordIs(c.mem, a + off, k);
    hide LoadWord;
    assert c.st.Pop(1).stack == stack;
  }

  lemma StoreStep(env: Callee, code: seq<Op>, c: Config, k: Kind, off: nat, stack: seq<nat>, a: nat, v: nat)
    requires c.st.ctl != [] && IsAt(code, c.st.pc, Op.Store(k, off)) && c.st.stack == stack + [a] + [v]
    ensures Step(env, code, c) == if a + off + k.Size() > |c.mem| then Trap
      else Next(Stacked(c, stack, 1).(mem := Overwrite(c.mem, a + off, ToBytes(v, k.Size()))))
  {
    hide Overwrite, ToBytes;
    assert c.st.Pop(2).stack == stack;
    assert c.st.stack[|stack|] == a && c.st.stack[|stack| + 1] == v;
  }

  lemma ConstStep(env: Callee, code: seq<Op>, c: Config, v: I32)
    requires c.st.ctl != [] && IsAt(code, c.st.pc, Plain(Const(v)))
    ensures Step(env, code, c) == Next(Stacked(c, c.st.stack + [v], 1))
  {
  }

  lemma BinopStep(env: Callee, code: seq<Op>, c: Config, o: Bin, stack: seq<nat>, a: nat, b: nat)
    requires c.st.ctl != [] && IsAt(code, c.st.pc, Plain(Binop(o))) && !o.DivU? && !o.RemU?
      && c.st.stack == stack + [a] + [b]
    ensures Step(env, code, c) == Next(Stacked(c, stack + [BinVal(o, a, b)], 1))
  {
    hide BinVal;
    assert c.st.Pop(2).stack == stack;
  }

  lemma MoveStep(env: Callee, code: seq<Op>, c: Config, op: Wasm.Op)
    requires c.st.ctl != [] && IsAt(code, c.st.pc, Plain(op)) && (op.GlobalGet? || op.LocalTee? || op.GlobalSet?)
    ensures Step(env, code, c) == Lift(Shape(|code|, op, c.st), c.mem)
  {
  }

  lemma LoadLDoes(env: Callee, code: seq<Op>, c: Config, x: nat, k: Kind, off: nat)
    requires c.st.ctl != [] && GetAt(code, c.st.pc, x) && IsAt(code, c.st.pc + 1, Op.Load(k, off))
    ensures Does(Runs(env, code), c, Fast(env, LoadL(x, k, off), c))
  {
    hide Step, Does, LoadWord;
    GetStep(env, code, c, x);
    DoesStep(Runs(env, code), c);
    if x < |c.st.locals| {
      var a := c.st.locals[x];
      var d := Stacked(c, c.st.stack + [a], 1);
      LoadStep(env, code, d, k, off, c.st.stack, a);
      DoesStep(Runs(env, code), d);
      DoesThen(Runs(env, code), c, d, Step(env, code, d));
    }
  }

  lemma StoreLLDoes(env: Callee, code: seq<Op>, c: Config, a: nat, v: nat, k: Kind, off: nat)
    requires c.st.ctl != [] && GetAt(code, c.st.pc, a) && GetAt(code, c.st.pc + 1, v)
      && IsAt(code, c.st.pc + 2, Op.Store(k, off))
    ensures Does(Runs(env, code), c, Fast(env, StoreLL(a, v, k, off), c))
  {
    hide Step, Does, Overwrite, ToBytes;
    var locals := c.st.locals;
    if a >= |locals| || v >= |locals| {
      TwoGets(env, code, c, a, v);
    } else {
      var d := Stacked(c, c.st.stack + [locals[a]], 1);
      var e := Stacked(d, d.st.stack + [locals[v]], 1);
      GetStep(env, code, c, a);
      GetStep(env, code, d, v);
      StoreStep(env, code, e, k, off, c.st.stack, locals[a], locals[v]);
      DoesStep(Runs(env, code), e);
      DoesThen(Runs(env, code), d, e, Step(env, code, e));
      DoesThen(Runs(env, code), c, d, Step(env, code, e));
    }
  }

  /** The four instructions of a copy. */
  lemma CopyDoes(env: Callee, code: seq<Op>, c: Config, a: nat, x: nat, k1: Kind, k2: Kind, o1: nat, o2: nat)
    requires c.st.ctl != [] && CopyAt(code, c.st.pc, a, x, k1, k2, o1, o2) && a < |c.st.locals| && x < |c.st.locals|
    ensures Does(Runs(env, code), c, Stored(c, CopyWord(c.mem, c.st.locals[x] + o1, c.st.locals[a] + o2, k1, k2), 4))
  {
    hide Step, Does, Overwrite, ToBytes, LoadWord;
    var (locals, step) := (c.st.locals, Runs(env, code));
    var r := Stored(c, CopyWord(c.mem, locals[x] + o1, locals[a] + o2, k1, k2), 4);
    var d := Stacked(c, c.st.stack + [locals[a]], 1);
    var e := Stacked(d, d.st.stack + [locals[x]], 1);
    GetStep(env, code, c, a);
    GetStep(env, code, d, x);
    LoadStep(env, code, e, k1, o1, d.st.stack, locals[x]);
    DoesStep(step, e);
    match LoadWord(c.mem, locals[x] + o1, k1) {
      case None =>
      case Some(v) =>
        var f := Stacked(e, d.st.stack + [v], 1);
        StoreStep(env, code, f, k2, o2, c.st.stack, locals[a], v);
        DoesStep(step, f);
        DoesThen(step, e, f, r);
    }
    DoesThen(step, d, e, r);
    DoesThen(step, c, d, r);
  }

  lemma CopyLLDoes(env: Callee, code: seq<Op>, c: Config, a: nat, x: nat, k1: Kind, k2: Kind, o1: nat, o2: nat)
    requires c.st.ctl != [] && CopyAt(code, c.st.pc, a, x, k1, k2, o1, o2)
    ensures Does(Runs(env, code), c, Fast(env, CopyLL(a, x, k1, k2, o1, o2), c))
  {
    hide Step, Does, CopyWord;
    if a >= |c.st.locals| || x >= |c.st.locals| {
      TwoGets(env, code, c, a, x);
    } else {
      CopyDoes(env, code, c, a, x, k1, k2, o1, o2);
    }
  }

  lemma AddVal(x: nat, v: nat)
    ensures BinVal(Add, x, v) == (x % U32 + v) % U32
  {
  }

  lemma AddLCDoes(env: Callee, code: seq<Op>, c: Config, x: nat, v: I32)
    requires c.st.ctl != [] && GetAt(code, c.st.pc, x)
    requires IsAt(code, c.st.pc + 1, Plain(Const(v))) && IsAt(code, c.st.pc + 2, Plain(Binop(Add)))
    ensures Does(Runs(env, code), c, Fast(env, AddLC(x, v), c))
  {
    hide Step, Does, BinVal;
    GetStep(env, code, c, x);
    DoesStep(Runs(env, code), c);
    if x < |c.st.locals| {
      var a := c.st.locals[x];
      var d := Stacked(c, c.st.stack + [a], 1);
      var e := Stacked(d, d.st.stack + [v], 1);
      ConstStep(env, code, d, v);
      BinopStep(env, code, e, Add, c.st.stack, a, v);
      AddVal(a, v);
      DoesStep(Runs(env, code), e);
      DoesThen(Runs(env, code), d, e, Step(env, code, e));
      DoesThen(Runs(env, code), c, d, Step(env, code, e));
    }
  }

  lemma SpSubDoes(env: Callee, code: seq<Op>, c: Config, g: nat, v: I32, l: nat)
    requires c.st.ctl != [] && IsAt(code, c.st.pc, Plain(GlobalGet(g))) && IsAt(code, c.st.pc + 1, Plain(Const(v)))
    requires IsAt(code, c.st.pc + 2, Plain(Binop(Sub))) && IsAt(code, c.st.pc + 3, Plain(LocalTee(l)))
    requires IsAt(code, c.st.pc + 4, Plain(GlobalSet(g)))
    ensures Does(Runs(env, code), c, Fast(env, SpSub(g, v, l), c))
  {
    hide Step, Does, BinVal;
    var (st, step) := (c.st, Runs(env, code));
    MoveStep(env, code, c, GlobalGet(g));
    DoesStep(step, c);
    if g < |st.globals| {
      var w := st.globals[g];
      var r := BinVal(Sub, w, v);
      SubVal(w, v);
      var d := Stacked(c, st.stack + [w], 1);
      var e := Stacked(d, d.st.stack + [v], 1);
      var f := Stacked(c, st.stack + [r], 3);
      ConstStep(env, code, d, v);
      BinopStep(env, code, e, Sub, st.stack, w, v);
      SpSubEnds(env, code, c, f, g, v, l);
      var out := Fast(env, SpSub(g, v, l), c);
      DoesThen(step, e, f, out);
      DoesThen(step, d, e, out);
      DoesThen(step, c, d, out);
    }
  }

  lemma SubVal(a: nat, b: nat)
    ensures BinVal(Sub, a, b) == (a - b) % U32
  {
  }

  /** The `local.tee` and the `global.set`. */
  lemma SpSubEnds(env: Callee, code: seq<Op>, c: Config, f: Config, g: nat, v: I32, l: nat)
    requires c.st.ctl != [] && IsAt(code, c.st.pc + 3, Plain(LocalTee(l)))
      && IsAt(code, c.st.pc + 4, Plain(GlobalSet(g)))
    requires g < |c.st.globals| && f == Stacked(c, c.st.stack + [(c.st.globals[g] - v) % U32], 3)
    ensures Does(Runs(env, code), f, Fast(env, SpSub(g, v, l), c))
  {
    hide Step, Does;
    var (st, r) := (c.st, (c.st.globals[g] - v) % U32);
    MoveStep(env, code, f, LocalTee(l));
    DoesStep(Runs(env, code), f);
    if l < |st.locals| {
      var e := f.(st := f.st.(locals := st.locals[l := r], pc := f.st.pc + 1));
      MoveStep(env, code, e, GlobalSet(g));
      assert e.st.Pop(1).stack == st.stack;
      DoesStep(Runs(env, code), e);
      DoesThen(Runs(env, code), f, e, Step(env, code, e));
    }
  }

  // ----- calls -----

  lemma {:induction false} CallArgsDo(env: Callee, code: seq<Op>, c: Config, f: nat, args: seq<nat>)
    requires c.st.ctl != [] && (forall j :: 0 <= j < |args| ==> GetAt(code, c.st.pc + j, args[j]))
    requires IsAt(code, c.st.pc + |args|, Call(f))
    ensures Does(Runs(env, code), c, match PushAll(c, args) case None => Stuck case Some(d) => env(f, d))
    decreases |args|
  {
    DoesStep(Runs(env, code), c);
    if args != [] {
      assert GetAt(code, c.st.pc + 0, args[0]);
      GetStep(env, code, c, args[0]);
      if args[0] < |c.st.locals| {
        var d := Stacked(c, c.st.stack + [c.st.locals[args[0]]], 1);
        forall j | 0 <= j < |args[1..]|
          ensures GetAt(code, d.st.pc + j, args[1..][j])
        {
          assert GetAt(code, c.st.pc + (j + 1), args[j + 1]);
        }
        CallArgsDo(env, code, d, f, args[1..]);
        hide Step, Does;
        DoesThen(Runs(env, code), c, d, match PushAll(c, args) case None => Stuck case Some(d) => env(f, d));
      }
    }
  }

  lemma CallLDoes(env: Callee, code: seq<Op>, c: Config, f: nat, args: seq<nat>)
    requires c.st.ctl != [] && (forall j :: 0 <= j < |args| ==> GetAt(code, c.st.pc + j, args[j]))
    requires IsAt(code, c.st.pc + |args|, Call(f))
    ensures Does(Runs(env, code), c, Fast(env, CallL(f, args), c))
  {
    CallArgsDo(env, code, c, f, args);
  }

  // ----- runs of copies -----

  /** Two stages of a run. */
  lemma DoesAfter(step: Stepper, c: Config, d: Config, r: StepResult)
    requires Does(step, c, Next(d)) && Does(step, d, r) && c.st.ctl != [] && d.st.ctl != []
    ensures Does(step, c, r)
  {
    var k: nat :| k > 0 && Walk(step, c, k) == Some(d);
    assert Reaches(step, c, d);
    match r
    case Next(e) =>
      var m: nat :| m > 0 && Walk(step, d, m) == Some(e);
      WalkAdd(step, c, k, m);
      assert Walk(step, c, k + m) == Some(e);
    case Trap => PanicsLater(step, c, d);
    case Stuck =>
      var e :| Reaches(step, d, e) && step(e) == Stuck && e.st.ctl != [];
      ReachesTrans(step, c, d, e);
  }

  lemma {:induction false} WordsDo(env: Callee, code: seq<Op>, c: Config, start: nat, a: nat, x: nat, o1: nat, o2: nat,
                                   j: nat, n: nat, desc: bool)
    requires c.st.ctl != [] && j < n && CopiesAt(code, start, a, x, o1, o2, n, desc) && c.st.pc == start + 4 * j
    requires a < |c.st.locals| && x < |c.st.locals|
    ensures Does(Runs(env, code), c, Stored(c, CopyWords(c.mem, c.st.locals[x], c.st.locals[a], o1, o2, j, n, desc),
      4 * (n - j)))
    decreases n - j
  {
    hide Step, Does, CopyWord, Offset;
    assert CopyAt(code, start + 4 * j, a, x, I64, I64, Offset(o1, j, desc), Offset(o2, j, desc));
    assert Offset(o1, j, desc) >= 0 && Offset(o2, j, desc) >= 0;
    CopyDoes(env, code, c, a, x, I64, I64, Offset(o1, j, desc), Offset(o2, j, desc));
    var r := CopyWord(c.mem, c.st.locals[x] + Offset(o1, j, desc), c.st.locals[a] + Offset(o2, j, desc), I64, I64);
    if r.Some? && j + 1 < n {
      var d := Config(c.st.(pc := c.st.pc + 4), r.value);
      WordsDo(env, code, d, start, a, x, o1, o2, j + 1, n, desc);
      DoesAfter(Runs(env, code), c, d, Stored(c, CopyWords(c.mem, c.st.locals[x], c.st.locals[a], o1, o2, j, n, desc),
        4 * (n - j)));
    }
  }

  // ----- a run whose source and target lie apart -----

  /** Where word `j` of a run lies, from the lowest address. */
  function WordPlace(n: nat, j: nat, desc: bool): nat
    requires j < n
  {
    if desc then 8 * (n - 1 - j) else 8 * j
  }

  /** The lowest addresses a run touches. */
  function Ends(x: nat, a: nat, o1: nat, o2: nat, n: nat, desc: bool): (nat, nat)
    requires n > 0 && Offset(o1, n - 1, desc) >= 0 && Offset(o2, n - 1, desc) >= 0
  {
    if desc then (x + o1 - 8 * (n - 1), a + o2 - 8 * (n - 1)) else (x + o1, a + o2)
  }

  lemma WordAt(x: nat, a: nat, o1: nat, o2: nat, n: nat, j: nat, desc: bool)
    requires j < n && Offset(o1, n - 1, desc) >= 0 && Offset(o2, n - 1, desc) >= 0
    ensures Offset(o1, j, desc) >= 0 && Offset(o2, j, desc) >= 0
    ensures var ((src, dst), at) := (Ends(x, a, o1, o2, n, desc), WordPlace(n, j, desc));
      x + Offset(o1, j, desc) == src + at && a + Offset(o2, j, desc) == dst + at && at + 8 <= 8 * n
  {
  }

  /** A run in bounds on both sides, its sides apart. */
  predicate Clear(mem: seq<Byte>, src: nat, dst: nat, n: nat) {
    src + 8 * n <= |mem| && dst + 8 * n <= |mem| && (src + 8 * n <= dst || dst + 8 * n <= src)
  }

  /** `mem` with bytes `lo` to `hi` of the run copied. */
  function Block(mem: seq<Byte>, src: nat, dst: nat, lo: nat, hi: nat): (r: seq<Byte>)
    requires lo <= hi && src + hi <= |mem| && dst + hi <= |mem|
    ensures |r| == |mem|
  {
    Overwrite(mem, dst + lo, mem[src + lo..src + hi])
  }

  /** A neighbouring stretch copied too, above or below. */
  lemma BlockGrows(mem: seq<Byte>, src: nat, dst: nat, lo: nat, mid: nat, hi: nat)
    requires lo <= mid <= hi && src + hi <= |mem| && dst + hi <= |mem|
    ensures Overwrite(Block(mem, src, dst, lo, mid), dst + mid, mem[src + mid..src + hi]) == Block(mem, src, dst, lo,
      hi)
    ensures Overwrite(Block(mem, src, dst, mid, hi), dst + lo, mem[src + lo..src + mid]) == Block(mem, src, dst, lo, hi)
  {
    hide Overwrite;
  }

  /** The first `j` words of the run copied: from below, or from above. */
  function Partly(mem: seq<Byte>, src: nat, dst: nat, n: nat, j: nat, desc: bool): (r: seq<Byte>)
    requires j <= n && Clear(mem, src, dst, n)
    ensures |r| == |mem|
  {
    if desc then Block(mem, src, dst, 8 * (n - j), 8 * n) else Block(mem, src, dst, 0, 8 * j)
  }

  /** The words not copied yet are the words there at the start. */
  lemma WordApart(mem: seq<Byte>, src: nat, dst: nat, n: nat, j: nat, desc: bool)
    requires j < n && Clear(mem, src, dst, n)
    ensures var at := WordPlace(n, j, desc);
      Partly(mem, src, dst, n, j, desc)[src + at..src + at + 8] == mem[src + at..src + at + 8]
  {
  }

  lemma PartlyNext(mem: seq<Byte>, src: nat, dst: nat, n: nat, j: nat, desc: bool)
    requires j < n && Clear(mem, src, dst, n)
    ensures var at := WordPlace(n, j, desc);
      Overwrite(Partly(mem, src, dst, n, j, desc), dst + at, mem[src + at..src + at + 8]) == Partly(mem, src, dst, n,
        j + 1, desc)
  {
    hide Overwrite, Block;
    if desc {
      BlockGrows(mem, src, dst, 8 * (n - 1 - j), 8 * (n - j), 8 * n);
    } else {
      BlockGrows(mem, src, dst, 0, 8 * j, 8 * (j + 1));
    }
  }

  lemma PartlyEnds(mem: seq<Byte>, src: nat, dst: nat, n: nat, desc: bool)
    requires Clear(mem, src, dst, n)
    ensures Partly(mem, src, dst, n, 0, desc) == mem
    ensures Partly(mem, src, dst, n, n, desc) == Overwrite(mem, dst, mem[src..src + 8 * n])
  {
  }

  /** A word copied as it stands in memory. */
  lemma CopiedWord(mem: seq<Byte>, from: nat, to: nat)
    requires from + 8 <= |mem| && to + 8 <= |mem|
    ensures CopyWord(mem, from, to, I64, I64) == Some(Overwrite(mem, to, mem[from..from + 8]))
  {
    var bs := mem[from..from + 8];
    forall k | 0 <= k < 8
      ensures ByteAt(FromBytes(bs), k) == bs[k]
    {
      ByteAtFromBytes(bs, k);
    }
    assert ToBytes(FromBytes(bs), 8) == bs;
  }

  lemma CopyWordsStep(mem: seq<Byte>, next: seq<Byte>, x: nat, a: nat, o1: nat, o2: nat, j: nat, n: nat, desc: bool)
    requires j < n && Offset(o1, j, desc) >= 0 && Offset(o2, j, desc) >= 0
    requires CopyWord(mem, x + Offset(o1, j, desc), a + Offset(o2, j, desc), I64, I64) == Some(next)
    ensures CopyWords(mem, x, a, o1, o2, j, n, desc) == CopyWords(next, x, a, o1, o2, j + 1, n, desc)
  {
  }

  /** One more word. */
  lemma WordStep(mem: seq<Byte>, x: nat, a: nat, o1: nat, o2: nat, j: nat, n: nat, desc: bool, src: nat, dst: nat)
    requires j < n && Offset(o1, n - 1, desc) >= 0 && Offset(o2, n - 1, desc) >= 0
    requires Ends(x, a, o1, o2, n, desc) == (src, dst) && Clear(mem, src, dst, n)
    ensures CopyWords(Partly(mem, src, dst, n, j, desc), x, a, o1, o2, j, n, desc)
         == CopyWords(Partly(mem, src, dst, n, j + 1, desc), x, a, o1, o2, j + 1, n, desc)
  {
    var (now, at) := (Partly(mem, src, dst, n, j, desc), WordPlace(n, j, desc));
    WordAt(x, a, o1, o2, n, j, desc);
    WordApart(mem, src, dst, n, j, desc);
    PartlyNext(mem, src, dst, n, j, desc);
    hide Partly, Offset, WordPlace, CopyWord, Ends;
    CopiedWord(now, src + at, dst + at);
    CopyWordsStep(now, Partly(mem, src, dst, n, j + 1, desc), x, a, o1, o2, j, n, desc);
  }

  /** Words `j` to `n`. */
  lemma {:induction false} WordsAreBlock(mem: seq<Byte>, x: nat, a: nat, o1: nat, o2: nat, j: nat, n: nat, desc: bool,
                                         src: nat, dst: nat)
    requires 0 < n && j <= n && Offset(o1, n - 1, desc) >= 0 && Offset(o2, n - 1, desc) >= 0
    requires Ends(x, a, o1, o2, n, desc) == (src, dst) && Clear(mem, src, dst, n)
    ensures CopyWords(Partly(mem, src, dst, n, j, desc), x, a, o1, o2, j, n,
      desc) == Some(Partly(mem, src, dst, n, n, desc))
    decreases n - j
  {
    hide Partly, Offset, Ends, CopyWord;
    if j < n {
      WordStep(mem, x, a, o1, o2, j, n, desc, src, dst);
      WordsAreBlock(mem, x, a, o1, o2, j + 1, n, desc, src, dst);
    }
  }

  /** The block copy is the word-by-word copy, in either order. */
  lemma CopyRunIs(mem: seq<Byte>, x: nat, a: nat, o1: nat, o2: nat, n: nat, desc: bool)
    requires n > 0 && Offset(o1, n - 1, desc) >= 0 && Offset(o2, n - 1, desc) >= 0
    ensures CopyRun(mem, x, a, o1, o2, n, desc) == CopyWords(mem, x, a, o1, o2, 0, n, desc)
  {
    var (src, dst) := Ends(x, a, o1, o2, n, desc);
    if Clear(mem, src, dst, n) {
      WordsAreBlock(mem, x, a, o1, o2, 0, n, desc, src, dst);
      PartlyEnds(mem, src, dst, n, desc);
      hide Partly, CopyWords, Overwrite, Ends, Clear, Offset;
    }
  }

  lemma CopyNDoes(env: Callee, code: seq<Op>, c: Config, a: nat, x: nat, o1: nat, o2: nat, n: nat, desc: bool)
    requires c.st.ctl != [] && n > 0 && CopiesAt(code, c.st.pc, a, x, o1, o2, n, desc)
    ensures Does(Runs(env, code), c, Fast(env, CopyN(a, x, o1, o2, n, desc), c))
  {
    hide Step, Does, CopyWords, CopyRun;
    assert CopyAt(code, c.st.pc + 4 * 0, a, x, I64, I64, Offset(o1, 0, desc), Offset(o2, 0, desc));
    assert CopyAt(code, c.st.pc + 4 * (n - 1), a, x, I64, I64, Offset(o1, n - 1, desc), Offset(o2, n - 1, desc));
    if a >= |c.st.locals| || x >= |c.st.locals| {
      TwoGets(env, code, c, a, x);
    } else {
      WordsDo(env, code, c, c.st.pc, a, x, o1, o2, 0, n, desc);
      CopyRunIs(c.mem, c.st.locals[x], c.st.locals[a], o1, o2, n, desc);
    }
  }

  // ----- the whole pass -----

  lemma PlainSame(env: Callee, code: seq<Op>, now: seq<Op>, c: Config)
    requires |now| == |code| && (c.st.pc < |code| ==> now[c.st.pc] == code[c.st.pc] && Unfused(code[c.st.pc]))
    ensures Step(env, now, c) == Step(env, code, c)
  {
  }

  /** From every code offset, the fused instruction there does what the plain instructions do. */
  lemma FusedSpeeds(env: Callee, code: seq<Op>, now: seq<Op>)
    requires Fused(code, now) && forall i :: 0 <= i < |code| ==> Unfused(code[i])
    ensures Speeds(Runs(env, code), Runs(env, now))
  {
    forall c
      ensures Does(Runs(env, code), c, Step(env, now, c))
    {
      if c.st.ctl == [] || c.st.pc >= |code| || now[c.st.pc] == code[c.st.pc] {
        PlainStuckOrSame(env, code, now, c);
        DoesStep(Runs(env, code), c);
      } else {
        FusedDoes(env, code, now, c);
      }
    }
  }

  lemma PlainStuckOrSame(env: Callee, code: seq<Op>, now: seq<Op>, c: Config)
    requires |now| == |code| && forall i :: 0 <= i < |code| ==> Unfused(code[i])
    requires c.st.ctl == [] || c.st.pc >= |code| || now[c.st.pc] == code[c.st.pc]
    ensures Step(env, now, c) == Step(env, code, c)
  {
    if c.st.ctl != [] {
      PlainSame(env, code, now, c);
    }
  }

  lemma FusedDoes(env: Callee, code: seq<Op>, now: seq<Op>, c: Config)
    requires |now| == |code| && c.st.ctl != [] && c.st.pc < |code| && Stands(code, c.st.pc, now[c.st.pc])
    ensures Does(Runs(env, code), c, Step(env, now, c))
  {
    assert Step(env, now, c) == Fast(env, now[c.st.pc], c);
    hide Step, Does, Fast;
    match now[c.st.pc]
    case LoadL(x, k, off) => LoadLDoes(env, code, c, x, k, off);
    case StoreLL(a, v, k, off) => StoreLLDoes(env, code, c, a, v, k, off);
    case CopyLL(a, x, k1, k2, o1, o2) => CopyLLDoes(env, code, c, a, x, k1, k2, o1, o2);
    case CopyN(a, x, o1, o2, n, desc) => CopyNDoes(env, code, c, a, x, o1, o2, n, desc);
    case AddLC(x, v) => AddLCDoes(env, code, c, x, v);
    case SpSub(g, v, l) => SpSubDoes(env, code, c, g, v, l);
    case CallL(f, args) => CallLDoes(env, code, c, f, args);
  }

  /** The fused code panics where the plain code does, and returns what it returns, from every state. */
  lemma FusedSame(env: Callee, code: seq<Op>, now: seq<Op>, c: Config)
    requires Fused(code, now) && forall i :: 0 <= i < |code| ==> Unfused(code[i])
    ensures Panics(Runs(env, now), c) <==> Panics(Runs(env, code), c)
    ensures forall d :: Returns(Runs(env, now), c, d) <==> Returns(Runs(env, code), c, d)
  {
    FusedSpeeds(env, code, now);
    SpeedsSame(Runs(env, code), Runs(env, now), c);
  }

  // ----- rewriting -----

  const MaxU16: nat := 65535

  method Fuse(code: array<Op>)
    requires forall i :: 0 <= i < code.Length ==> Unfused(code[i])
    modifies code
    ensures Fused(old(code[..]), code[..])
  {
    ghost var was := code[..];
    for i := 0 to code.Length
      invariant Fused(was, code[..])
    {
      if code[i].Call? {
        FuseCall(code, was, i);
      }
      if i + 4 < code.Length && code[i].Plain? && code[i].op.GlobalGet? && code[i + 1].Plain? && code[i + 1].op.Const?
         && code[i + 2] == Plain(Binop(Sub)) && code[i + 3].Plain? && code[i + 3].op.LocalTee?
         && code[i + 4] == Plain(GlobalSet(code[i].op.i)) {
        PlainKept(was, code[..], i, 5);
        Set(code, was, i, SpSub(code[i].op.i, code[i + 1].op.c, code[i + 3].op.i));
      }
    }
    FuseBasic(code, was);
    FuseCopies(code, was);
  }

  /** Plain instructions are the original ones. */
  lemma PlainKept(was: seq<Op>, now: seq<Op>, i: nat, n: nat)
    requires Fused(was, now) && i + n <= |now| && forall j :: i <= j < i + n ==> Unfused(now[j])
    ensures forall j :: i <= j < i + n ==> now[j] == was[j]
  {
  }

  method Set(code: array<Op>, ghost was: seq<Op>, i: nat, op: Op)
    requires Fused(was, code[..]) && i < code.Length && Stands(was, i, op)
    modifies code
    ensures Fused(was, code[..]) && code[..] == old(code[..])[i := op]
  {
    hide Stands;
    code[i] := op;
  }

  /** A call and the up to three `local.get`s before it. */
  method FuseCall(code: array<Op>, ghost was: seq<Op>, i: nat)
    requires Fused(was, code[..]) && i < code.Length && code[i].Call?
    modifies code
    ensures Fused(was, code[..]) && code[i..] == old(code[i..])
  {
    var n := 0;
    while n < 3 && n < i && code[i - n - 1].Plain? && code[i - n - 1].op.LocalGet? && code[i - n - 1].op.i <= MaxU16
      invariant n <= i && n <= 3
      invariant forall j :: i - n <= j < i ==> code[j].Plain? && code[j].op.LocalGet?
    {
      n := n + 1;
    }
    if n > 0 {
      var args: seq<nat> := seq(n,
        k requires 0 <= k < n reads code => if code[i - n + k].Plain? && code[i - n + k].op.LocalGet?
        then code[i - n + k].op.i else 0);
      PlainKept(was, code[..], i - n, n + 1);
      assert forall j :: 0 <= j < n ==> was[i - n + j] == code[i - n + j] == Plain(LocalGet(args[j]));
      Set(code, was, i - n, CallL(code[i].f, args));
    }
  }

  method FuseBasic(code: array<Op>, ghost was: seq<Op>)
    requires Fused(was, code[..])
    modifies code
    ensures Fused(was, code[..])
  {
    var i := 0;
    while i < code.Length
      invariant Fused(was, code[..])
    {
      var left := code.Length - i;
      var get := code[i].Plain? && code[i].op.LocalGet?;
      if left > 3 && get && code[i + 1].Plain? && code[i + 1].op.LocalGet? && code[i + 2].Load? && code[i + 3].Store?
         && code[i + 2].off <= MaxU16 && code[i + 3].off <= MaxU16 {
        PlainKept(was, code[..], i, 4);
        Set(code, was, i, CopyLL(code[i].op.i, code[i + 1].op.i, code[i + 2].k, code[i + 3].k, code[i + 2].off,
          code[i + 3].off));
        i := i + 4;
      } else if left > 2 && get && code[i + 1].Plain? && code[i + 1].op.LocalGet? && code[i + 2].Store? {
        PlainKept(was, code[..], i, 3);
        Set(code, was, i, StoreLL(code[i].op.i, code[i + 1].op.i, code[i + 2].k, code[i + 2].off));
        i := i + 3;
      } else if left > 2 && get && code[i + 1].Plain? && code[i + 1].op.Const? && code[i + 2] == Plain(Binop(Add)) {
        PlainKept(was, code[..], i, 3);
        Set(code, was, i, AddLC(code[i].op.i, code[i + 1].op.c));
        i := i + 3;
      } else if left > 1 && get && code[i + 1].Load? {
        PlainKept(was, code[..], i, 2);
        Set(code, was, i, LoadL(code[i].op.i, code[i + 1].k, code[i + 1].off));
        i := i + 2;
      } else {
        i := i + 1;
      }
    }
  }

  /** Instruction `i` is the `n`-th word copy of the run that starts with `first`. */
  predicate NextCopy(code: seq<Op>, i: nat, first: Op, n: nat, desc: bool)
    requires first.CopyLL?
  {
    && i < |code| && code[i].CopyLL? && code[i].k1 == I64 && code[i].k2 == I64 && code[i].a == first.a
      && code[i].x == first.x
    && code[i].o1 == Offset(first.o1, n, desc) && code[i].o2 == Offset(first.o2, n, desc)
  }

  /** How many word copies follow each other at consecutive offsets. */
  method RunLength(code: array<Op>, i: nat, desc: bool) returns (n: nat)
    requires i < code.Length && code[i].CopyLL? && code[i].k1 == I64 && code[i].k2 == I64
    ensures 1 <= n <= 255 && forall j :: 0 <= j < n ==> NextCopy(code[..], i + 4 * j, code[i], j, desc)
    ensures n < 255 ==> !NextCopy(code[..], i + 4 * n, code[i], n, desc)
  {
    n := 1;
    while n < 255 && NextCopy(code[..], i + 4 * n, code[i], n, desc)
      invariant 1 <= n <= 255 && forall j :: 0 <= j < n ==> NextCopy(code[..], i + 4 * j, code[i], j, desc)
    {
      n := n + 1;
    }
  }

  method FuseCopies(code: array<Op>, ghost was: seq<Op>)
    requires Fused(was, code[..]) && forall i :: 0 <= i < |was| ==> Unfused(was[i])
    modifies code
    ensures Fused(was, code[..])
  {
    var i := 0;
    while i < code.Length
      invariant Fused(was, code[..])
    {
      if code[i].CopyLL? && code[i].k1 == I64 && code[i].k2 == I64 {
        var up := RunLength(code, i, false);
        var down := RunLength(code, i, true);
        var (n, desc) := if down > up then (down, true) else (up, false);
        if n > 1 {
          CopiesStand(was, code[..], i, n, desc);
          Set(code, was, i, CopyN(code[i].a, code[i].x, code[i].o1, code[i].o2, n, desc));
        }
        i := i + 4 * n;
      } else {
        i := i + 1;
      }
    }
  }

  lemma CopiesStand(was: seq<Op>, now: seq<Op>, i: nat, n: nat, desc: bool)
    requires Fused(was, now) && (forall j :: 0 <= j < |was| ==> Unfused(was[j])) && i < |now| && n > 0 && now[i].CopyLL?
    requires forall j :: 0 <= j < n ==> NextCopy(now, i + 4 * j, now[i], j, desc)
    ensures Stands(was, i, CopyN(now[i].a, now[i].x, now[i].o1, now[i].o2, n, desc))
  {
    forall j | 0 <= j < n
      ensures CopyAt(was, i + 4 * j, now[i].a, now[i].x, I64, I64, Offset(now[i].o1, j, desc),
        Offset(now[i].o2, j, desc))
    {
      assert NextCopy(now, i + 4 * j, now[i], j, desc);
      assert Stands(was, i + 4 * j, now[i + 4 * j]);
    }
  }
}
