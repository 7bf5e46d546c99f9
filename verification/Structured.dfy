/**
 * Structured code: sequences, blocks, loops and conditionals, and what they do without offsets, by the rules of section
 * 4.4.5 of the WebAssembly Core Specification 1.0; the flat code they are decoded to; and that running the flat code
 * ends exactly as the structured code does.
 */
module Structured {
  import opened Words
  import S = SymValues
  import opened SymMemory
  import W = Wasm

  datatype Code = Done | Then(head: Instr, rest: Code)

  /** `Do` is any instruction but those of control. */
  datatype Instr =
    | Do(op: W.Op)
    | Block(body: Code, params: nat, results: nat)
    | Loop(body: Code, params: nat, results: nat)
    | If(yes: Code, params: nat, results: nat)
    | IfElse(yes: Code, no: Code, params: nat, results: nat)
    | Br(depth: nat)
    | BrIf(depth: nat)
    | Return

  datatype Func = Func(body: Code, results: nat)

  // ----- what structured code does -----

  datatype Env = Env(locals: seq<nat>, globals: seq<nat>, mem: seq<Byte>)

  /** How code on an operand stack of its own ends: past its last instruction; at the label `depth` levels out, with the
      values it carries there; in a trap; stuck on what validation excludes; or not within the iterations allowed. */
  datatype Out =
    | Falls(own: seq<nat>, env: Env)
    | Branches(depth: nat, vals: seq<nat>, env: Env)
    | Traps
    | Stuck
    | Unfinished

  function Top(own: seq<nat>, n: nat): seq<nat>
    requires n <= |own|
  {
    own[|own| - n..]
  }

  function Under(own: seq<nat>, n: nat): seq<nat>
    requires n <= |own|
  {
    own[..|own| - n]
  }

  function Plainly(op: W.Op, own: seq<nat>, env: Env): Out {
    var k := |own|;
    match op
    case Nop => Falls(own, env)
    case Unreachable => Traps
    case Const(c) => Falls(own + [c], env)
    case Drop => if k < 1 then Stuck else Falls(own[..k - 1], env)
    case Select =>
      if k < 3 then Stuck else Falls(own[..k - 3] + [if own[k - 1] != 0 then own[k - 3] else own[k - 2]], env)
    case LocalGet(i) => if i < |env.locals| then Falls(own + [env.locals[i]], env) else Stuck
    case LocalSet(i) =>
      if k < 1 || i >= |env.locals| then Stuck
      else Falls(own[..k - 1], env.(locals := env.locals[i := own[k - 1]]))
    case LocalTee(i) =>
      if k < 1 || i >= |env.locals| then Stuck else Falls(own, env.(locals := env.locals[i := own[k - 1]]))
    case GlobalGet(i) => if i < |env.globals| then Falls(own + [env.globals[i]], env) else Stuck
    case GlobalSet(i) =>
      if k < 1 || i >= |env.globals| then Stuck
      else Falls(own[..k - 1], env.(globals := env.globals[i := own[k - 1]]))
    case Eqz => if k < 1 then Stuck else Falls(own[..k - 1] + [if own[k - 1] == 0 then 1 else 0], env)
    case Binop(o) =>
      if k < 2 then Stuck
      else if (o == S.DivU || o == S.RemU) && own[k - 1] == 0 then Traps
      else Falls(own[..k - 2] + [S.BinVal(o, own[k - 2], own[k - 1])], env)
    case Cmpop(o) =>
      if k < 2 then Stuck else Falls(own[..k - 2] + [if S.CmpVal(o, own[k - 2], own[k - 1]) then 1 else 0], env)
    case Load(w, off) =>
      if k < 1 then Stuck
      else if own[k - 1] + off + w.Size() > |env.mem| then Traps
      else
        var a := own[k - 1] + off;
        Falls(own[..k - 1] + [FromBytes(env.mem[a..a + w.Size()])], env)
    case Store(w, off) =>
      if k < 2 then Stuck
      else if own[k - 2] + off + w.Size() > |env.mem| then Traps
      else
        var a := own[k - 2] + off;
        Falls(own[..k - 2], env.(mem := env.mem[..a] + ToBytes(own[k - 1], w.Size()) + env.mem[a + w.Size()..]))
    case _ => Stuck
  }

  /** Out of a label that `below` was left under: falling out of its code, or branching to it. */
  function Leave(below: seq<nat>, out: Out): Out {
    match out
    case Falls(own, env) => Falls(below + own, env)
    case Branches(depth, vals, env) => if depth == 0 then Falls(below + vals, env) else Branches(depth - 1, vals, env)
    case other => other
  }

  /** `labels` are the numbers of values the enclosing labels take, innermost first; `fuel` bounds the iterations of
      every loop. */
  function EvalAll(code: Code, labels: seq<nat>, own: seq<nat>, env: Env, fuel: nat): Out
    decreases fuel, code, 0
  {
    match code
    case Done => Falls(own, env)
    case Then(i, rest) =>
      match Eval(i, labels, own, env, fuel)
      case Falls(next, env') => EvalAll(rest, labels, next, env', fuel)
      case out => out
  }

  function Eval(i: Instr, labels: seq<nat>, own: seq<nat>, env: Env, fuel: nat): Out
    decreases fuel, i, 0
  {
    match i
    case Do(op) => Plainly(op, own, env)
    case Block(body, params, results) =>
      if |own| < params then Stuck
      else Leave(Under(own, params), EvalAll(body, [results] + labels, Top(own, params), env, fuel))
    case Loop(body, params, _) =>
      if |own| < params then Stuck
      else Leave(Under(own, params), Iterate(body, params, labels, Top(own, params), env, fuel))
    case If(yes, params, results) =>
      if |own| < params + 1 then Stuck
      else if own[|own| - 1] == 0 then Falls(Under(own, 1), env)
      else
        var rest := Under(own, 1);
        Leave(Under(rest, params), EvalAll(yes, [results] + labels, Top(rest, params), env, fuel))
    case IfElse(yes, no, params, results) =>
      if |own| < params + 1 then Stuck
      else
        var rest := Under(own, 1);
        Leave(Under(rest, params),
              EvalAll(if own[|own| - 1] != 0 then yes else no, [results] + labels, Top(rest, params), env, fuel))
    case Br(depth) => Branch(depth, labels, own, env)
    case BrIf(depth) =>
      if |own| < 1 then Stuck
      else if own[|own| - 1] == 0 then Falls(Under(own, 1), env)
      else Branch(depth, labels, Under(own, 1), env)
    case Return => if labels == [] then Stuck else Branch(|labels| - 1, labels, own, env)
  }

  function Branch(depth: nat, labels: seq<nat>, own: seq<nat>, env: Env): Out {
    if depth < |labels| && labels[depth] <= |own| then Branches(depth, Top(own, labels[depth]), env) else Stuck
  }

  /** A loop's code, again each time it branches to its label. */
  function Iterate(body: Code, params: nat, labels: seq<nat>, args: seq<nat>, env: Env, fuel: nat): Out
    decreases fuel, body, 1
  {
    var out := EvalAll(body, [params] + labels, args, env, fuel);
    if out.Branches? && out.depth == 0 then
      if fuel == 0 then Unfinished else Iterate(body, params, labels, out.vals, out.env, fuel - 1)
    else out
  }

  // ----- the flat code -----

  function Size(i: Instr): nat {
    match i
    case Block(body, _, _) => Length(body) + 2
    case Loop(body, _, _) => Length(body) + 2
    case If(yes, _, _) => Length(yes) + 2
    case IfElse(yes, no, _, _) => Length(yes) + Length(no) + 3
    case _ => 1
  }

  function Length(code: Code): nat {
    match code
    case Done => 0
    case Then(i, rest) => Size(i) + Length(rest)
  }

  /** The instruction, placed at offset `at`. */
  function Flat(i: Instr, at: nat): (ops: seq<W.Op>)
    ensures |ops| == Size(i)
  {
    match i
    case Do(op) => [op]
    case Block(body, params, results) =>
      [W.Op.Block(at + 1 + Length(body), params, results)] + FlatAll(body, at + 1) + [W.End]
    case Loop(body, params, _) => [W.Op.Loop(params)] + FlatAll(body, at + 1) + [W.End]
    case If(yes, params, results) =>
      [W.Op.If(0, at + 1 + Length(yes), params, results)] + FlatAll(yes, at + 1) + [W.End]
    case IfElse(yes, no, params, results) =>
      var mid := at + 1 + Length(yes);
      var end := mid + 1 + Length(no);
      [W.Op.If(mid, end, params, results)] + FlatAll(yes, at + 1) + [W.Else(end)] + FlatAll(no, mid + 1) + [W.End]
    case Br(depth) => [W.Op.Br(depth)]
    case BrIf(depth) => [W.Op.BrIf(depth)]
    case Return => [W.Op.Return]
  }

  function FlatAll(code: Code, at: nat): (ops: seq<W.Op>)
    ensures |ops| == Length(code)
  {
    match code
    case Done => []
    case Then(i, rest) => Flat(i, at) + FlatAll(rest, at + Size(i))
  }

  function Flatten(f: Func): seq<W.Op> {
    FlatAll(f.body, 0) + [W.End]
  }

  /** `ops` stand at offset `at`. */
  ghost predicate Placed(prog: seq<W.Op>, at: nat, ops: seq<W.Op>) {
    at + |ops| <= |prog| && prog[at..at + |ops|] == ops
  }

  lemma PlacedParts(prog: seq<W.Op>, at: nat, a: seq<W.Op>, b: seq<W.Op>)
    requires Placed(prog, at, a + b)
    ensures Placed(prog, at, a) && Placed(prog, at + |a|, b)
  {
    var ops := a + b;
    assert prog[at..at + |a|] == prog[at..at + |ops|][..|a|] == a;
    assert prog[at + |a|..at + |a| + |b|] == prog[at..at + |ops|][|a|..] == b;
  }

  lemma PlacedOne(prog: seq<W.Op>, at: nat, op: W.Op)
    requires Placed(prog, at, [op])
    ensures at < |prog| && prog[at] == op
  {
    assert prog[at..at + 1][0] == prog[at];
  }

  // ----- flat states -----

  function Conf(pc: nat, ctl: seq<W.Ctl>, stack: seq<nat>, env: Env): W.Config {
    W.Config(W.State(pc, stack, env.locals, env.globals, ctl), env.mem)
  }

  /** The labels of the flat state take what `labels` say, at heights within the `base` values below. */
  ghost predicate OkLabels(labels: seq<nat>, ctl: seq<W.Ctl>, base: nat) {
    |labels| == |ctl| && forall k :: 0 <= k < |ctl| ==> ctl[k].height <= base && ctl[k].arity == labels[|ctl| - 1 - k]
  }

  /** Where a branch to the label `depth` levels out lands, with the values it carries: at the loop's first instruction,
      or past the block's end. */
  function Landing(n: nat, ctl: seq<W.Ctl>, depth: nat, base: seq<nat>, vals: seq<nat>, env: Env): W.Config
    requires depth < |ctl| && ctl[|ctl| - 1 - depth].height <= |base|
  {
    var idx := |ctl| - 1 - depth;
    var stack := base[..ctl[idx].height] + vals;
    if ctl[idx].isLoop then Conf(ctl[idx].brPc, ctl[..idx + 1], stack, env)
    else Conf(if idx == 0 then n else ctl[idx].brPc + 1, ctl[..idx], stack, env)
  }

  /** In one step or more. */
  ghost predicate Goes(step: W.Stepper, c: W.Config, d: W.Config) {
    exists n: nat :: n >= 1 && W.Walk(step, c, n) == Some(d)
  }

  /** From `c` the flat code ends as `out` says, or is still running after `fuel` steps. */
  ghost predicate Agrees(prog: seq<W.Op>, c: W.Config, end: nat, ctl: seq<W.Ctl>, base: seq<nat>, fuel: nat, out: Out) {
    var step := W.Steps(prog);
    match out
    case Falls(own, env) => W.Reaches(step, c, Conf(end, ctl, base + own, env))
    case Branches(depth, vals, env) =>
      && depth < |ctl| && ctl[|ctl| - 1 - depth].height <= |base|
      && Goes(step, c, Landing(|prog|, ctl, depth, base, vals, env))
    case Traps => W.Panics(step, c)
    case Stuck => true
    case Unfinished => W.Walk(step, c, fuel).Some?
  }

  lemma GoesStep(step: W.Stepper, c: W.Config, d: W.Config)
    requires step(c) == W.Next(d)
    ensures Goes(step, c, d) && W.Reaches(step, c, d)
  {
    W.ReachesStep(step, c, d);
    assert W.Walk(step, d, 0) == Some(d);
    assert W.Walk(step, c, 1) == Some(d);
  }

  lemma {:induction false} WalkShorter(step: W.Stepper, c: W.Config, m: nat, n: nat)
    requires m <= n && W.Walk(step, c, n).Some?
    ensures W.Walk(step, c, m).Some?
    decreases m
  {
    if m > 0 {
      WalkShorter(step, step(c).c, m - 1, n - 1);
    }
  }

  /** What comes after a stretch of steps. */
  lemma AgreesAfter(prog: seq<W.Op>, c: W.Config, d: W.Config, end: nat, ctl: seq<W.Ctl>, base: seq<nat>, fuel: nat,
                    out: Out)
    requires W.Reaches(W.Steps(prog), c, d) && Agrees(prog, d, end, ctl, base, fuel, out)
    ensures Agrees(prog, c, end, ctl, base, fuel, out)
  {
    var step := W.Steps(prog);
    var m: nat :| W.Walk(step, c, m) == Some(d);
    match out {
      case Falls(own, env) => W.ReachesTrans(step, c, d, Conf(end, ctl, base + own, env));
      case Branches(depth, vals, env) =>
        var n: nat :| n >= 1 && W.Walk(step, d, n) == Some(Landing(|prog|, ctl, depth, base, vals, env));
        W.WalkAdd(step, c, m, n);
        assert W.Walk(step, c, m + n) == Some(Landing(|prog|, ctl, depth, base, vals, env));
      case Traps => W.PanicsLater(step, c, d);
      case Stuck =>
      case Unfinished =>
        W.WalkAdd(step, c, m, fuel);
        WalkShorter(step, c, fuel, m + fuel);
    }
  }

  // ----- one instruction -----

  lemma PlainAgrees(prog: seq<W.Op>, at: nat, op: W.Op, ctl: seq<W.Ctl>, base: seq<nat>, own: seq<nat>, env: Env,
                    fuel: nat)
    requires at < |prog| && prog[at] == op && ctl != []
    ensures Agrees(prog, Conf(at, ctl, base + own, env), at + 1, ctl, base, fuel, Plainly(op, own, env))
  {
    var (c, out) := (Conf(at, ctl, base + own, env), Plainly(op, own, env));
    PlainStep(prog, at, op, ctl, base, own, env);
    match out {
      case Falls(o, e) => GoesStep(W.Steps(prog), c, Conf(at + 1, ctl, base + o, e));
      case Traps => W.PanicsNow(W.Steps(prog), c);
      case _ =>
    }
  }

  /** The step the flat code makes is the one `op` does. */
  ghost predicate SteppedAt(prog: seq<W.Op>, at: nat, op: W.Op, ctl: seq<W.Ctl>, base: seq<nat>, own: seq<nat>,
                            env: Env) {
    var (r, out) := (W.CStep(prog, Conf(at, ctl, base + own, env)), Plainly(op, own, env));
    match out
    case Falls(o, e) => r == W.Next(Conf(at + 1, ctl, base + o, e))
    case Traps => r == W.Trap
    case _ => out == Stuck
  }

  /** The top `n` values and what is under them. */
  lemma Tops(base: seq<nat>, own: seq<nat>, n: nat)
    requires 0 < n <= |own|
    ensures var stack := base + own;
      && stack[..|stack| - n] == base + own[..|own| - n] && stack[|stack| - n] == own[|own| - n]
    ensures forall x: nat :: base + own[..|own| - n] + [x] == base + (own[..|own| - n] + [x])
  {
  }

  lemma PlainStep(prog: seq<W.Op>, at: nat, op: W.Op, ctl: seq<W.Ctl>, base: seq<nat>, own: seq<nat>, env: Env)
    requires at < |prog| && prog[at] == op && ctl != []
    ensures SteppedAt(prog, at, op, ctl, base, own, env)
  {
    hide S.BinVal, S.CmpVal, FromBytes, ToBytes;
    if op.Load? {
      LoadStep(prog, at, op, ctl, base, own, env);
    } else if op.Store? {
      StoreStep(prog, at, op, ctl, base, own, env);
    } else if op.LocalGet? || op.GlobalGet? {
      GetStep(prog, at, op, ctl, base, own, env);
    } else if op.LocalSet? || op.LocalTee? || op.GlobalSet? || op.Drop? || op.Nop? {
      SetStep(prog, at, op, ctl, base, own, env);
    } else if op.Binop? || op.Cmpop? {
      ArithmeticStep(prog, at, op, ctl, base, own, env);
    } else {
      ValueStep(prog, at, op, ctl, base, own, env);
    }
  }

  lemma GetStep(prog: seq<W.Op>, at: nat, op: W.Op, ctl: seq<W.Ctl>, base: seq<nat>, own: seq<nat>, env: Env)
    requires at < |prog| && prog[at] == op && ctl != [] && (op.LocalGet? || op.GlobalGet?)
    ensures SteppedAt(prog, at, op, ctl, base, own, env)
  {
    assert forall x: nat :: base + own + [x] == base + (own + [x]);
  }

  lemma SetStep(prog: seq<W.Op>, at: nat, op: W.Op, ctl: seq<W.Ctl>, base: seq<nat>, own: seq<nat>, env: Env)
    requires at < |prog| && prog[at] == op && ctl != []
    requires op.LocalSet? || op.LocalTee? || op.GlobalSet? || op.Drop? || op.Nop?
    ensures SteppedAt(prog, at, op, ctl, base, own, env)
  {
    if |own| > 0 {
      Tops(base, own, 1);
    }
  }

  lemma ArithmeticStep(prog: seq<W.Op>, at: nat, op: W.Op, ctl: seq<W.Ctl>, base: seq<nat>, own: seq<nat>, env: Env)
    requires at < |prog| && prog[at] == op && ctl != [] && (op.Binop? || op.Cmpop?)
    ensures SteppedAt(prog, at, op, ctl, base, own, env)
  {
    hide S.BinVal, S.CmpVal;
    if |own| > 1 {
      Tops(base, own, 1);
      Tops(base, own, 2);
    }
  }

  lemma ValueStep(prog: seq<W.Op>, at: nat, op: W.Op, ctl: seq<W.Ctl>, base: seq<nat>, own: seq<nat>, env: Env)
    requires at < |prog| && prog[at] == op && ctl != []
    requires !(op.Load? || op.Store? || op.Binop? || op.Cmpop?)
    requires !(op.LocalGet? || op.LocalSet? || op.LocalTee? || op.GlobalGet? || op.GlobalSet? || op.Drop? || op.Nop?)
    ensures SteppedAt(prog, at, op, ctl, base, own, env)
  {
    if |own| > 0 {
      Tops(base, own, 1);
    }
    if |own| > 2 {
      Tops(base, own, 2);
      Tops(base, own, 3);
    }
    assert forall x: nat :: base + own + [x] == base + (own + [x]);
  }

  lemma LoadStep(prog: seq<W.Op>, at: nat, op: W.Op, ctl: seq<W.Ctl>, base: seq<nat>, own: seq<nat>, env: Env)
    requires at < |prog| && prog[at] == op && ctl != [] && op.Load?
    ensures SteppedAt(prog, at, op, ctl, base, own, env)
  {
    hide FromBytes, ToBytes;
    if |own| > 0 {
      Tops(base, own, 1);
    }
  }

  lemma StoreStep(prog: seq<W.Op>, at: nat, op: W.Op, ctl: seq<W.Ctl>, base: seq<nat>, own: seq<nat>, env: Env)
    requires at < |prog| && prog[at] == op && ctl != [] && op.Store?
    ensures SteppedAt(prog, at, op, ctl, base, own, env)
  {
    hide FromBytes, ToBytes, Overwrite;
    if |own| > 1 {
      Tops(base, own, 1);
      Tops(base, own, 2);
      if own[|own| - 2] + op.off + op.w.Size() <= |env.mem| {
        Overwritten(env.mem, own[|own| - 2] + op.off, ToBytes(own[|own| - 1], op.w.Size()));
      }
    }
  }

  lemma Overwritten(mem: seq<Byte>, a: nat, bytes: seq<Byte>)
    requires a + |bytes| <= |mem|
    ensures Overwrite(mem, a, bytes) == mem[..a] + bytes + mem[a + |bytes|..]
  {
  }

  // ----- control -----

  /** A label whose code ends at `end`. */
  lemma EndAgrees(prog: seq<W.Op>, end: nat, ctl: seq<W.Ctl>, k: W.Ctl, stack: seq<nat>, env: Env)
    requires end < |prog| && prog[end] == W.End && ctl != []
    ensures W.Reaches(W.Steps(prog), Conf(end, ctl + [k], stack, env), Conf(end + 1, ctl, stack, env))
  {
    assert (ctl + [k])[..|ctl|] == ctl;
    GoesStep(W.Steps(prog), Conf(end, ctl + [k], stack, env), Conf(end + 1, ctl, stack, env));
  }

  /** Leaving a block: past its end, or by a branch to its label or further out. */
  lemma LeaveAgrees(prog: seq<W.Op>, c: W.Config, end: nat, ctl: seq<W.Ctl>, k: W.Ctl, base: seq<nat>, below: seq<nat>,
                    fuel: nat, out: Out)
    requires end < |prog| && prog[end] == W.End && ctl != [] && k.height == |base| + |below|
    requires forall i :: 0 <= i < |ctl| ==> ctl[i].height <= |base|
    requires (!k.isLoop && k.brPc == end) || !(out.Branches? && out.depth == 0)
    requires Agrees(prog, c, end, ctl + [k], base + below, fuel, out)
    ensures Agrees(prog, c, end + 1, ctl, base, fuel, Leave(below, out))
  {
    var inner := ctl + [k];
    match out {
      case Falls(own, env) =>
        EndAgrees(prog, end, ctl, k, base + below + own, env);
        W.ReachesTrans(W.Steps(prog), c, Conf(end, inner, base + below + own, env),
          Conf(end + 1, ctl, base + below + own, env));
        assert base + below + own == base + (below + own);
      case Branches(depth, vals, env) => BranchOut(prog, ctl, k, base, below, depth, vals, env);
      case _ =>
    }
  }

  /** A branch lands in the same place, seen from inside a label or from outside. */
  lemma BranchOut(prog: seq<W.Op>, ctl: seq<W.Ctl>, k: W.Ctl, base: seq<nat>, below: seq<nat>, depth: nat,
                  vals: seq<nat>, env: Env)
    requires ctl != [] && k.height == |base| + |below| && depth <= |ctl|
    requires forall i :: 0 <= i < |ctl| ==> ctl[i].height <= |base|
    ensures var inner := Landing(|prog|, ctl + [k], depth, base + below, vals, env);
      if depth > 0 then inner == Landing(|prog|, ctl, depth - 1, base, vals, env)
      else if k.isLoop then inner == Conf(k.brPc, ctl + [k], base + below + vals, env)
      else inner == Conf(k.brPc + 1, ctl, base + (below + vals), env)
    ensures (ctl + [k])[|ctl + [k]| - 1 - depth].height <= |base + below|
  {
    var inner := ctl + [k];
    var idx := |inner| - 1 - depth;
    if depth > 0 {
      assert inner[idx] == ctl[idx] && inner[..idx] == ctl[..idx] && inner[..idx + 1] == ctl[..idx + 1];
      assert (base + below)[..ctl[idx].height] == base[..ctl[idx].height];
    } else {
      assert inner[..idx] == ctl && inner[..idx + 1] == inner && (base + below)[..k.height] == base + below;
      assert base + below + vals == base + (below + vals);
    }
  }

  /** A jump from a stack of values lands where the label says. */
  lemma JumpLands(n: nat, at: nat, depth: nat, labels: seq<nat>, ctl: seq<W.Ctl>, base: seq<nat>, own: seq<nat>,
                  env: Env)
    requires OkLabels(labels, ctl, |base|) && depth < |labels| && labels[depth] <= |own|
    ensures ctl[|ctl| - 1 - depth].height <= |base|
    ensures var land := Landing(n, ctl, depth, base, Top(own, labels[depth]), env);
      && W.Jump(n, Conf(at, ctl, base + own, env).st, depth) == Some(land.st) && land.mem == env.mem
  {
    var (idx, stack) := (|ctl| - 1 - depth, base + own);
    assert stack[..ctl[idx].height] == base[..ctl[idx].height];
    assert stack[|stack| - ctl[idx].arity..] == Top(own, labels[depth]);
  }

  /** A branching instruction lands where its label says. */
  lemma BranchAgrees(prog: seq<W.Op>, at: nat, depth: nat, labels: seq<nat>, ctl: seq<W.Ctl>, base: seq<nat>,
                     own: seq<nat>, env: Env, fuel: nat)
    requires at < |prog| && ctl != [] && OkLabels(labels, ctl, |base|)
    requires prog[at] == W.Op.Br(depth) || (prog[at] == W.Op.Return && depth == |ctl| - 1)
    ensures Agrees(prog, Conf(at, ctl, base + own, env), at + 1, ctl, base, fuel, Branch(depth, labels, own, env))
  {
    hide W.Jump, Landing;
    if depth < |labels| && labels[depth] <= |own| {
      JumpLands(|prog|, at, depth, labels, ctl, base, own, env);
      GoesStep(W.Steps(prog), Conf(at, ctl, base + own, env),
        Landing(|prog|, ctl, depth, base, Top(own, labels[depth]), env));
    }
  }

  lemma BranchIfAgrees(prog: seq<W.Op>, at: nat, depth: nat, labels: seq<nat>, ctl: seq<W.Ctl>, base: seq<nat>,
                       own: seq<nat>, x: nat, env: Env, fuel: nat)
    requires at < |prog| && ctl != [] && OkLabels(labels, ctl, |base|) && prog[at] == W.Op.BrIf(depth)
    ensures Agrees(prog, Conf(at, ctl, base + (own + [x]), env), at + 1, ctl, base, fuel,
      if x == 0 then Falls(own, env) else Branch(depth, labels, own, env))
  {
    hide W.Jump, Landing;
    var c := Conf(at, ctl, base + (own + [x]), env);
    assert base + (own + [x]) == base + own + [x];
    assert c.st.Pop(1) == Conf(at, ctl, base + own, env).st;
    if x == 0 {
      GoesStep(W.Steps(prog), c, Conf(at + 1, ctl, base + own, env));
    } else if depth < |labels| && labels[depth] <= |own| {
      JumpLands(|prog|, at, depth, labels, ctl, base, own, env);
      GoesStep(W.Steps(prog), c, Landing(|prog|, ctl, depth, base, Top(own, labels[depth]), env));
    }
  }

  /** Entering a block, a loop, or an arm of a conditional: its label is on, at the height of what is under its
      parameters. */
  lemma EntersBlock(prog: seq<W.Op>, at: nat, end: nat, params: nat, results: nat, ctl: seq<W.Ctl>, base: seq<nat>,
                    own: seq<nat>, env: Env)
    requires at < |prog| && ctl != [] && prog[at] == W.Op.Block(end, params, results) && params <= |own|
    ensures W.Reaches(W.Steps(prog), Conf(at, ctl, base + own, env),
      Conf(at + 1, ctl + [W.Ctl(end, false, |base| + |Under(own, params)|, results)],
           base + Under(own, params) + Top(own, params), env))
  {
    assert base + Under(own, params) + Top(own, params) == base + own;
    GoesStep(W.Steps(prog), Conf(at, ctl, base + own, env),
      Conf(at + 1, ctl + [W.Ctl(end, false, |base| + |Under(own, params)|, results)], base + own, env));
  }

  lemma EntersLoop(prog: seq<W.Op>, at: nat, params: nat, ctl: seq<W.Ctl>, base: seq<nat>, own: seq<nat>, env: Env)
    requires at < |prog| && ctl != [] && prog[at] == W.Op.Loop(params) && params <= |own|
    ensures W.Reaches(W.Steps(prog), Conf(at, ctl, base + own, env),
      Conf(at + 1, ctl + [W.Ctl(at + 1, true, |base| + |Under(own, params)|, params)],
           base + Under(own, params) + Top(own, params), env))
  {
    assert base + Under(own, params) + Top(own, params) == base + own;
    GoesStep(W.Steps(prog), Conf(at, ctl, base + own, env),
      Conf(at + 1, ctl + [W.Ctl(at + 1, true, |base| + |Under(own, params)|, params)], base + own, env));
  }

  lemma EntersIf(prog: seq<W.Op>, at: nat, mid: nat, end: nat, params: nat, results: nat, ctl: seq<W.Ctl>,
                 base: seq<nat>, own: seq<nat>, x: nat, env: Env)
    requires at < |prog| && ctl != [] && prog[at] == W.Op.If(mid, end, params, results) && params <= |own|
    ensures W.Reaches(W.Steps(prog), Conf(at, ctl, base + (own + [x]), env),
      Conf(if x != 0 then at + 1 else if mid != 0 then mid + 1 else end,
           ctl + [W.Ctl(end, false, |base| + |Under(own, params)|, results)],
           base + Under(own, params) + Top(own, params), env))
  {
    var c := Conf(at, ctl, base + (own + [x]), env);
    assert base + (own + [x]) == base + own + [x];
    assert base + Under(own, params) + Top(own, params) == base + own;
    assert c.st.Pop(1) == Conf(at, ctl, base + own, env).st;
    GoesStep(W.Steps(prog), c, Conf(if x != 0 then at + 1 else if mid != 0 then mid + 1 else end,
      ctl + [W.Ctl(end, false, |base| + |Under(own, params)|, results)], base + own, env));
  }

  lemma MoreLabels(labels: seq<nat>, ctl: seq<W.Ctl>, base: nat, k: W.Ctl, more: nat)
    requires OkLabels(labels, ctl, base) && base <= k.height <= more
    ensures OkLabels([k.arity] + labels, ctl + [k], more)
  {
  }

  // ----- the flat code does what the structured code does -----

  /** Code placed at `at`, under labels that match. */
  ghost predicate Set(prog: seq<W.Op>, at: nat, ops: seq<W.Op>, labels: seq<nat>, ctl: seq<W.Ctl>, base: seq<nat>) {
    Placed(prog, at, ops) && OkLabels(labels, ctl, |base|) && ctl != []
  }

  lemma {:induction false} RunsAll(prog: seq<W.Op>, code: Code, at: nat, labels: seq<nat>, ctl: seq<W.Ctl>,
                                   base: seq<nat>, own: seq<nat>, env: Env, fuel: nat)
    requires Set(prog, at, FlatAll(code, at), labels, ctl, base)
    ensures Agrees(prog, Conf(at, ctl, base + own, env), at + Length(code), ctl, base, fuel,
      EvalAll(code, labels, own, env, fuel))
    decreases fuel, code, 0
  {
    hide Agrees, OkLabels, Placed;
    match code {
      case Done => AgreesHere(prog, at, ctl, base, own, env, fuel);
      case Then(i, rest) =>
        PlacedParts(prog, at, Flat(i, at), FlatAll(rest, at + Size(i)));
        Runs(prog, i, at, labels, ctl, base, own, env, fuel);
        match Eval(i, labels, own, env, fuel) {
          case Falls(next, env') =>
            RunsAll(prog, rest, at + Size(i), labels, ctl, base, next, env', fuel);
            AgreesOn(prog, Conf(at, ctl, base + own, env), at + Size(i), at + Length(code), ctl, base, fuel, next, env',
              EvalAll(rest, labels, next, env', fuel));
          case out => EndsElsewhere(prog, Conf(at, ctl, base + own, env), at + Size(i), at + Length(code), ctl, base,
            fuel,
            out);
        }
    }
  }

  lemma AgreesHere(prog: seq<W.Op>, at: nat, ctl: seq<W.Ctl>, base: seq<nat>, own: seq<nat>, env: Env, fuel: nat)
    ensures Agrees(prog, Conf(at, ctl, base + own, env), at, ctl, base, fuel, Falls(own, env))
  {
    W.ReachesSelf(W.Steps(prog), Conf(at, ctl, base + own, env));
  }

  lemma AgreesOn(prog: seq<W.Op>, c: W.Config, mid: nat, end: nat, ctl: seq<W.Ctl>, base: seq<nat>, fuel: nat,
                 own: seq<nat>, env: Env, out: Out)
    requires Agrees(prog, c, mid, ctl, base, fuel, Falls(own, env))
    requires Agrees(prog, Conf(mid, ctl, base + own, env), end, ctl, base, fuel, out)
    ensures Agrees(prog, c, end, ctl, base, fuel, out)
  {
    AgreesAfter(prog, c, Conf(mid, ctl, base + own, env), end, ctl, base, fuel, out);
  }

  lemma EndsElsewhere(prog: seq<W.Op>, c: W.Config, end: nat, other: nat, ctl: seq<W.Ctl>, base: seq<nat>, fuel: nat,
                      out: Out)
    requires Agrees(prog, c, end, ctl, base, fuel, out) && !out.Falls?
    ensures Agrees(prog, c, other, ctl, base, fuel, out)
  {
  }

  lemma {:induction false} Runs(prog: seq<W.Op>, i: Instr, at: nat, labels: seq<nat>, ctl: seq<W.Ctl>, base: seq<nat>,
                                own: seq<nat>, env: Env, fuel: nat)
    requires Set(prog, at, Flat(i, at), labels, ctl, base)
    ensures Agrees(prog, Conf(at, ctl, base + own, env), at + Size(i), ctl, base, fuel, Eval(i, labels, own, env, fuel))
    decreases fuel, i, 1
  {
    hide Agrees, OkLabels, Placed, Leave;
    match i {
      case Do(op) =>
        PlacedOne(prog, at, op);
        PlainAgrees(prog, at, op, ctl, base, own, env, fuel);
      case Block(_, _, _) => RunsBlock(prog, i, at, labels, ctl, base, own, env, fuel);
      case Loop(_, _, _) => RunsLoop(prog, i, at, labels, ctl, base, own, env, fuel);
      case If(_, _, _) => RunsIf(prog, i, at, labels, ctl, base, own, env, fuel);
      case IfElse(_, _, _, _) => RunsIfElse(prog, i, at, labels, ctl, base, own, env, fuel);
      case Br(depth) =>
        PlacedOne(prog, at, W.Op.Br(depth));
        BranchAgrees(prog, at, depth, labels, ctl, base, own, env, fuel);
      case BrIf(depth) =>
        if |own| > 0 {
          PlacedOne(prog, at, W.Op.BrIf(depth));
          assert own == Under(own, 1) + [own[|own| - 1]];
          BranchIfAgrees(prog, at, depth, labels, ctl, base, Under(own, 1), own[|own| - 1], env, fuel);
        } else {
          StuckAgrees(prog, Conf(at, ctl, base + own, env), at + 1, ctl, base, fuel);
        }
      case Return =>
        PlacedOne(prog, at, W.Op.Return);
        SameDepth(labels, ctl, |base|);
        BranchAgrees(prog, at, |ctl| - 1, labels, ctl, base, own, env, fuel);
    }
  }

  lemma StuckAgrees(prog: seq<W.Op>, c: W.Config, end: nat, ctl: seq<W.Ctl>, base: seq<nat>, fuel: nat)
    ensures Agrees(prog, c, end, ctl, base, fuel, Stuck)
  {
  }

  lemma SameDepth(labels: seq<nat>, ctl: seq<W.Ctl>, base: nat)
    requires OkLabels(labels, ctl, base)
    ensures |labels| == |ctl|
  {
  }

  /** A label's code, once entered. */
  lemma LabelAgrees(prog: seq<W.Op>, c: W.Config, at: nat, end: nat, k: W.Ctl, labels: seq<nat>, ctl: seq<W.Ctl>,
                    base: seq<nat>, below: seq<nat>, args: seq<nat>, env: Env, fuel: nat, out: Out)
    requires end < |prog| && prog[end] == W.End && ctl != [] && OkLabels(labels, ctl, |base|)
    requires k.height == |base| + |below| && ((!k.isLoop && k.brPc == end) || !(out.Branches? && out.depth == 0))
    requires var inner := ctl + [k];
      && W.Reaches(W.Steps(prog), c, Conf(at, inner, base + below + args, env))
      && Agrees(prog, Conf(at, inner, base + below + args, env), end, inner, base + below, fuel, out)
    ensures Agrees(prog, c, end + 1, ctl, base, fuel, Leave(below, out))
  {
    hide Agrees, Leave;
    AgreesAfter(prog, c, Conf(at, ctl + [k], base + below + args, env), end, ctl + [k], base + below, fuel, out);
    LeaveAgrees(prog, c, end, ctl, k, base, below, fuel, out);
  }

  /** A label's code, run from where the label was entered; the first arm of a conditional ends before the second. */
  lemma {:induction false} LabelRuns(prog: seq<W.Op>, c: W.Config, code: Code, at: nat, end: nat, labels: seq<nat>,
                                     ctl: seq<W.Ctl>, k: W.Ctl, base: seq<nat>, below: seq<nat>, args: seq<nat>,
                                     env: Env, fuel: nat)
    requires Placed(prog, at, FlatAll(code, at)) && OkLabels(labels, ctl, |base|) && ctl != []
    requires end < |prog| && prog[end] == W.End && k == W.Ctl(end, false, |base| + |below|, k.arity)
    requires at + Length(code) == end || (at + Length(code) < |prog| && prog[at + Length(code)] == W.Else(end))
    requires W.Reaches(W.Steps(prog), c, Conf(at, ctl + [k], base + below + args, env))
    ensures Agrees(prog, c, end + 1, ctl, base, fuel, Leave(below, EvalAll(code, [k.arity] + labels, args, env, fuel)))
    decreases fuel, code, 1
  {
    hide Agrees, OkLabels, Placed, Leave, FlatAll, EvalAll, W.Steps, W.Reaches;
    MoreLabels(labels, ctl, |base|, k, |base + below|);
    RunsAll(prog, code, at, [k.arity] + labels, ctl + [k], base + below, args, env, fuel);
    var out := EvalAll(code, [k.arity] + labels, args, env, fuel);
    ArmEnds(prog, Conf(at, ctl + [k], base + below + args, env), at + Length(code), end, ctl + [k], base + below, fuel,
      out);
    LabelAgrees(prog, c, at, end, k, labels, ctl, base, below, args, env, fuel, out);
  }

  lemma {:induction false} RunsBlock(prog: seq<W.Op>, i: Instr, at: nat, labels: seq<nat>, ctl: seq<W.Ctl>,
                                     base: seq<nat>, own: seq<nat>, env: Env, fuel: nat)
    requires i.Block? && Set(prog, at, Flat(i, at), labels, ctl, base)
    ensures Agrees(prog, Conf(at, ctl, base + own, env), at + Size(i), ctl, base, fuel, Eval(i, labels, own, env, fuel))
    decreases fuel, i, 0
  {
    hide Agrees, OkLabels, Placed, Leave, FlatAll, EvalAll, Under, Top, Flat;
    var Block(body, params, results) := i;
    var (c, end) := (Conf(at, ctl, base + own, env), at + 1 + Length(body));
    if |own| < params {
      StuckAgrees(prog, c, at + Size(i), ctl, base, fuel);
      return;
    }
    var (below, args) := (Under(own, params), Top(own, params));
    var k := W.Ctl(end, false, |base| + |below|, results);
    BlockPlaced(prog, i, at);
    EntersBlock(prog, at, end, params, results, ctl, base, own, env);
    LabelRuns(prog, c, body, at + 1, end, labels, ctl, k, base, below, args, env, fuel);
  }

  /** Where the parts of a block stand, of a loop, and of a conditional. */
  lemma BlockPlaced(prog: seq<W.Op>, i: Instr, at: nat)
    requires i.Block? && Placed(prog, at, Flat(i, at))
    ensures var end := at + 1 + Length(i.body);
      && end < |prog| && prog[at] == W.Op.Block(end, i.params, i.results) && prog[end] == W.End
      && Placed(prog, at + 1, FlatAll(i.body, at + 1))
  {
    var end := at + 1 + Length(i.body);
    var (first, last) := ([W.Op.Block(end, i.params, i.results)], [W.End]);
    PlacedParts(prog, at, first + FlatAll(i.body, at + 1), last);
    PlacedParts(prog, at, first, FlatAll(i.body, at + 1));
    PlacedOne(prog, at, first[0]);
    PlacedOne(prog, end, W.End);
  }

  lemma LoopPlaced(prog: seq<W.Op>, i: Instr, at: nat)
    requires i.Loop? && Placed(prog, at, Flat(i, at))
    ensures var end := at + 1 + Length(i.body);
      && end < |prog| && prog[at] == W.Op.Loop(i.params) && prog[end] == W.End
      && Placed(prog, at + 1, FlatAll(i.body, at + 1))
  {
    var end := at + 1 + Length(i.body);
    var (first, last) := ([W.Op.Loop(i.params)], [W.End]);
    PlacedParts(prog, at, first + FlatAll(i.body, at + 1), last);
    PlacedParts(prog, at, first, FlatAll(i.body, at + 1));
    PlacedOne(prog, at, first[0]);
    PlacedOne(prog, end, W.End);
  }

  lemma IfPlaced(prog: seq<W.Op>, i: Instr, at: nat)
    requires i.If? && Placed(prog, at, Flat(i, at))
    ensures var end := at + 1 + Length(i.yes);
      && end < |prog| && prog[at] == W.Op.If(0, end, i.params, i.results) && prog[end] == W.End
      && Placed(prog, at + 1, FlatAll(i.yes, at + 1))
  {
    var end := at + 1 + Length(i.yes);
    var (first, last) := ([W.Op.If(0, end, i.params, i.results)], [W.End]);
    PlacedParts(prog, at, first + FlatAll(i.yes, at + 1), last);
    PlacedParts(prog, at, first, FlatAll(i.yes, at + 1));
    PlacedOne(prog, at, first[0]);
    PlacedOne(prog, end, W.End);
  }

  lemma IfElsePlaced(prog: seq<W.Op>, i: Instr, at: nat)
    requires i.IfElse? && Placed(prog, at, Flat(i, at))
    ensures var mid := at + 1 + Length(i.yes);
      var end := mid + 1 + Length(i.no);
      && end < |prog| && prog[at] == W.Op.If(mid, end, i.params, i.results) && prog[mid] == W.Else(end)
      && prog[end] == W.End && Placed(prog, at + 1, FlatAll(i.yes, at + 1))
      && Placed(prog, mid + 1, FlatAll(i.no, mid + 1))
  {
    var mid := at + 1 + Length(i.yes);
    var end := mid + 1 + Length(i.no);
    FiveParts(prog, at, W.Op.If(mid, end, i.params, i.results), FlatAll(i.yes, at + 1), W.Else(end),
      FlatAll(i.no, mid + 1), W.End);
  }

  lemma FiveParts(prog: seq<W.Op>, at: nat, first: W.Op, yes: seq<W.Op>, middle: W.Op, no: seq<W.Op>, last: W.Op)
    requires Placed(prog, at, [first] + yes + [middle] + no + [last])
    ensures var mid := at + 1 + |yes|;
      var end := mid + 1 + |no|;
      && end < |prog| && prog[at] == first && prog[mid] == middle && prog[end] == last
      && Placed(prog, at + 1, yes) && Placed(prog, mid + 1, no)
  {
    hide Placed;
    PlacedParts(prog, at, [first] + yes + [middle] + no, [last]);
    PlacedParts(prog, at, [first] + yes + [middle], no);
    PlacedParts(prog, at, [first] + yes, [middle]);
    PlacedParts(prog, at, [first], yes);
    PlacedOne(prog, at, first);
    PlacedOne(prog, at + 1 + |yes|, middle);
    PlacedOne(prog, at + 1 + |yes| + 1 + |no|, last);
  }

  lemma {:induction false} RunsIf(prog: seq<W.Op>, i: Instr, at: nat, labels: seq<nat>, ctl: seq<W.Ctl>, base: seq<nat>,
                                  own: seq<nat>, env: Env, fuel: nat)
    requires i.If? && Set(prog, at, Flat(i, at), labels, ctl, base)
    ensures Agrees(prog, Conf(at, ctl, base + own, env), at + Size(i), ctl, base, fuel, Eval(i, labels, own, env, fuel))
    decreases fuel, i, 0
  {
    hide Agrees, OkLabels, Placed, Leave, FlatAll, EvalAll, Top, Flat;
    var If(yes, params, results) := i;
    var c := Conf(at, ctl, base + own, env);
    if |own| < params + 1 {
      StuckAgrees(prog, c, at + Size(i), ctl, base, fuel);
      return;
    }
    IfPlaced(prog, i, at);
    var (end, rest, x) := (at + 1 + Length(yes), Under(own, 1), own[|own| - 1]);
    assert own == rest + [x];
    hide Under;
    EntersIf(prog, at, 0, end, params, results, ctl, base, rest, x, env);
    var (below, args) := (Under(rest, params), Top(rest, params));
    var k := W.Ctl(end, false, |base| + |below|, results);
    if x != 0 {
      LabelRuns(prog, c, yes, at + 1, end, labels, ctl, k, base, below, args, env, fuel);
    } else {
      NothingRuns(prog, c, end, labels, ctl, k, base, below, args, env, fuel);
      UnderTop(rest, params);
    }
  }

  /** A label left at once. */
  lemma NothingRuns(prog: seq<W.Op>, c: W.Config, end: nat, labels: seq<nat>, ctl: seq<W.Ctl>, k: W.Ctl, base: seq<nat>,
                    below: seq<nat>, args: seq<nat>, env: Env, fuel: nat)
    requires OkLabels(labels, ctl, |base|) && ctl != []
    requires end < |prog| && prog[end] == W.End && k == W.Ctl(end, false, |base| + |below|, k.arity)
    requires W.Reaches(W.Steps(prog), c, Conf(end, ctl + [k], base + below + args, env))
    ensures Agrees(prog, c, end + 1, ctl, base, fuel, Falls(below + args, env))
  {
    hide Agrees, OkLabels;
    AgreesHere(prog, end, ctl + [k], base + below, args, env, fuel);
    LabelAgrees(prog, c, end, end, k, labels, ctl, base, below, args, env, fuel, Falls(args, env));
  }

  lemma UnderTop(own: seq<nat>, n: nat)
    requires n <= |own|
    ensures own == Under(own, n) + Top(own, n)
  {
  }

  /** Past the end of the first arm: over the second. */
  lemma ArmEnds(prog: seq<W.Op>, c: W.Config, mid: nat, end: nat, ctl: seq<W.Ctl>, base: seq<nat>, fuel: nat, out: Out)
    requires mid == end || (mid < |prog| && prog[mid] == W.Else(end))
    requires ctl != [] && Agrees(prog, c, mid, ctl, base, fuel, out)
    ensures Agrees(prog, c, end, ctl, base, fuel, out)
  {
    if mid != end && out.Falls? {
      var (d, e) := (Conf(mid, ctl, base + out.own, out.env), Conf(end, ctl, base + out.own, out.env));
      GoesStep(W.Steps(prog), d, e);
      W.ReachesTrans(W.Steps(prog), c, d, e);
    }
  }

  lemma IfElseIs(i: Instr, labels: seq<nat>, own: seq<nat>, env: Env, fuel: nat)
    requires i.IfElse?
    ensures Eval(i, labels, own, env, fuel)
         == if |own| < i.params + 1 then Stuck
            else
              var (rest, arm) := (Under(own, 1), if own[|own| - 1] != 0 then i.yes else i.no);
              Leave(Under(rest, i.params), EvalAll(arm, [i.results] + labels, Top(rest, i.params), env, fuel))
  {
  }

  lemma {:induction false} RunsIfElse(prog: seq<W.Op>, i: Instr, at: nat, labels: seq<nat>, ctl: seq<W.Ctl>,
                                      base: seq<nat>, own: seq<nat>, env: Env, fuel: nat)
    requires i.IfElse? && Set(prog, at, Flat(i, at), labels, ctl, base)
    ensures Agrees(prog, Conf(at, ctl, base + own, env), at + Size(i), ctl, base, fuel, Eval(i, labels, own, env, fuel))
    decreases fuel, i, 0
  {
    hide Agrees, OkLabels, Placed, Leave, FlatAll, Eval, EvalAll, Top, Flat;
    var IfElse(yes, no, params, results) := i;
    IfElseIs(i, labels, own, env, fuel);
    var c := Conf(at, ctl, base + own, env);
    if |own| < params + 1 {
      StuckAgrees(prog, c, at + Size(i), ctl, base, fuel);
      return;
    }
    IfElsePlaced(prog, i, at);
    var (mid, rest, x) := (at + 1 + Length(yes), Under(own, 1), own[|own| - 1]);
    assert own == rest + [x];
    hide Under;
    var end := mid + 1 + Length(no);
    EntersIf(prog, at, mid, end, params, results, ctl, base, rest, x, env);
    var (below, args) := (Under(rest, params), Top(rest, params));
    var k := W.Ctl(end, false, |base| + |below|, results);
    if x != 0 {
      LabelRuns(prog, c, yes, at + 1, end, labels, ctl, k, base, below, args, env, fuel);
    } else {
      LabelRuns(prog, c, no, mid + 1, end, labels, ctl, k, base, below, args, env, fuel);
    }
  }

  /** One more iteration before a run that agrees for less fuel. */
  lemma AgreesAgain(prog: seq<W.Op>, c: W.Config, d: W.Config, end: nat, ctl: seq<W.Ctl>, base: seq<nat>, fuel: nat,
                    out: Out)
    requires fuel > 0 && Goes(W.Steps(prog), c, d) && Agrees(prog, d, end, ctl, base, fuel - 1, out)
    ensures Agrees(prog, c, end, ctl, base, fuel, out)
  {
    if out.Unfinished? {
      StillRunning(W.Steps(prog), c, d, fuel);
    } else {
      hide Agrees;
      AgreesAny(prog, d, end, ctl, base, fuel - 1, fuel, out);
      GoesReaches(W.Steps(prog), c, d);
      AgreesAfter(prog, c, d, end, ctl, base, fuel, out);
    }
  }

  lemma GoesReaches(step: W.Stepper, c: W.Config, d: W.Config)
    requires Goes(step, c, d)
    ensures W.Reaches(step, c, d)
  {
  }

  lemma StillRunning(step: W.Stepper, c: W.Config, d: W.Config, fuel: nat)
    requires fuel > 0 && Goes(step, c, d) && W.Walk(step, d, fuel - 1).Some?
    ensures W.Walk(step, c, fuel).Some?
  {
    var n: nat :| n >= 1 && W.Walk(step, c, n) == Some(d);
    W.WalkAdd(step, c, n, fuel - 1);
    WalkShorter(step, c, fuel, n + (fuel - 1));
  }

  lemma AgreesAny(prog: seq<W.Op>, c: W.Config, end: nat, ctl: seq<W.Ctl>, base: seq<nat>, fuel: nat, other: nat,
                  out: Out)
    requires Agrees(prog, c, end, ctl, base, fuel, out) && !out.Unfinished?
    ensures Agrees(prog, c, end, ctl, base, other, out)
  {
  }

  /** A loop's iterations, from its first instruction on. */
  lemma {:induction false} Iterates(prog: seq<W.Op>, body: Code, at: nat, params: nat, labels: seq<nat>,
                                    ctl: seq<W.Ctl>, k: W.Ctl, base: seq<nat>, below: seq<nat>, args: seq<nat>,
                                    env: Env, fuel: nat)
    requires Set(prog, at, FlatAll(body, at), [params] + labels, ctl + [k], base + below) && ctl != []
    requires k == W.Ctl(at, true, |base| + |below|, params) && OkLabels(labels, ctl, |base|)
    ensures var out := Iterate(body, params, labels, args, env, fuel);
      && Agrees(prog, Conf(at, ctl + [k], base + below + args, env), at + Length(body), ctl + [k], base + below, fuel,
        out)
      && !(out.Branches? && out.depth == 0)
    decreases fuel, body, 1
  {
    var c := Conf(at, ctl + [k], base + below + args, env);
    var out := EvalAll(body, [params] + labels, args, env, fuel);
    RunsAll(prog, body, at, [params] + labels, ctl + [k], base + below, args, env, fuel);
    if out.Branches? && out.depth == 0 {
      BranchOut(prog, ctl, k, base, below, 0, out.vals, out.env);
      if fuel > 0 {
        Iterates(prog, body, at, params, labels, ctl, k, base, below, out.vals, out.env, fuel - 1);
        AgreesAgain(prog, c, Conf(at, ctl + [k], base + below + out.vals, out.env), at + Length(body), ctl + [k],
          base + below, fuel, Iterate(body, params, labels, out.vals, out.env, fuel - 1));
      }
    }
  }

  lemma {:induction false} RunsLoop(prog: seq<W.Op>, i: Instr, at: nat, labels: seq<nat>, ctl: seq<W.Ctl>,
                                    base: seq<nat>, own: seq<nat>, env: Env, fuel: nat)
    requires i.Loop? && Set(prog, at, Flat(i, at), labels, ctl, base)
    ensures Agrees(prog, Conf(at, ctl, base + own, env), at + Size(i), ctl, base, fuel, Eval(i, labels, own, env, fuel))
    decreases fuel, i, 0
  {
    hide Agrees, OkLabels, Placed, Leave, FlatAll, Iterate, Under, Top, Flat;
    var Loop(body, params, _) := i;
    var (c, end) := (Conf(at, ctl, base + own, env), at + 1 + Length(body));
    if |own| < params {
      StuckAgrees(prog, c, at + Size(i), ctl, base, fuel);
      return;
    }
    var (below, args) := (Under(own, params), Top(own, params));
    var k := W.Ctl(at + 1, true, |base| + |below|, params);
    LoopPlaced(prog, i, at);
    MoreLabels(labels, ctl, |base|, k, |base + below|);
    EntersLoop(prog, at, params, ctl, base, own, env);
    Iterates(prog, body, at + 1, params, labels, ctl, k, base, below, args, env, fuel);
    LabelAgrees(prog, c, at + 1, end, k, labels, ctl, base, below, args, env, fuel,
      Iterate(body, params, labels, args, env, fuel));
  }

  // ----- whole functions -----

  /** The flat code's first state: nothing on the stack, under the function's own label. */
  function Start(f: Func, env: Env): W.Config {
    Conf(0, [W.Ctl(Length(f.body), false, 0, f.results)], [], env)
  }

  /** The function, with iterations bounded by `fuel`. */
  function Call(f: Func, env: Env, fuel: nat): Out {
    Leave([], EvalAll(f.body, [f.results], [], env, fuel))
  }

  /** What the flat code ends with when the function ends with `vals`. */
  function Returned(f: Func, vals: seq<nat>, env: Env): W.Config {
    Conf(|Flatten(f)|, [], vals, env)
  }

  /** How a function ends, and its flat code. */
  ghost predicate CallAgrees(f: Func, env: Env, fuel: nat, out: Out) {
    var (step, c) := (W.Steps(Flatten(f)), Start(f, env));
    match out
    case Falls(vals, env') => W.Returns(step, c, Returned(f, vals, env'))
    case Branches(_, _, _) => false
    case Traps => W.Panics(step, c)
    case Stuck => true
    case Unfinished => W.Walk(step, c, fuel).Some?
  }

  /** Running a function's flat code: it returns what the function does, and traps where it does. */
  lemma CallRuns(f: Func, env: Env, fuel: nat)
    ensures CallAgrees(f, env, fuel, Call(f, env, fuel))
  {
    hide FlatAll, EvalAll, Agrees, CallAgrees, Leave, Placed, OkLabels;
    var (prog, k) := (Flatten(f), W.Ctl(Length(f.body), false, 0, f.results));
    var none: seq<nat> := [];
    FlatPlaced(f, k);
    assert none + none == none;
    RunsAll(prog, f.body, 0, [f.results], [k], none, none, env, fuel);
    BodyEnds(f, env, fuel, EvalAll(f.body, [f.results], [], env, fuel));
  }

  lemma FlatPlaced(f: Func, k: W.Ctl)
    requires k == W.Ctl(Length(f.body), false, 0, f.results)
    ensures Set(Flatten(f), 0, FlatAll(f.body, 0), [f.results], [k], [])
    ensures Length(f.body) < |Flatten(f)| && Flatten(f)[Length(f.body)] == W.End
  {
    assert Placed(Flatten(f), 0, FlatAll(f.body, 0) + [W.End]);
    PlacedParts(Flatten(f), 0, FlatAll(f.body, 0), [W.End]);
  }

  lemma BodyEnds(f: Func, env: Env, fuel: nat, out: Out)
    requires var k := W.Ctl(Length(f.body), false, 0, f.results);
      && Agrees(Flatten(f), Start(f, env), Length(f.body), [k], [], fuel, out)
      && Length(f.body) < |Flatten(f)| && Flatten(f)[Length(f.body)] == W.End
    ensures CallAgrees(f, env, fuel, Leave([], out))
  {
    var (prog, c, k) := (Flatten(f), Start(f, env), W.Ctl(Length(f.body), false, 0, f.results));
    var step := W.Steps(prog);
    hide Flatten, FlatAll, Length;
    match out {
      case Falls(vals, env') =>
        var (d, e) := (Conf(Length(f.body), [k], [] + vals, env'), Returned(f, vals, env'));
        assert [] + vals == vals;
        GoesStep(step, d, e);
        W.ReachesTrans(step, c, d, e);
      case Branches(depth, vals, env') =>
        assert [] + vals == vals;
        assert Landing(|prog|, [k], depth, [], vals, env') == Returned(f, vals, env');
      case _ =>
    }
  }

  /** The function ends with `vals`, for some number of iterations. */
  ghost predicate Ends(f: Func, env: Env, vals: seq<nat>, env': Env) {
    exists fuel :: Call(f, env, fuel) == Falls(vals, env')
  }

  ghost predicate EndsInTrap(f: Func, env: Env) {
    exists fuel :: Call(f, env, fuel) == Traps
  }

  ghost predicate NeverStuck(f: Func, env: Env) {
    forall fuel :: Call(f, env, fuel) != Stuck
  }

  /** What has ended has ended within some number of iterations. */
  lemma NotForever(f: Func, env: Env, d: W.Config) returns (fuel: nat)
    requires W.Reaches(W.Steps(Flatten(f)), Start(f, env), d) && !W.Steps(Flatten(f))(d).Next?
    ensures !Call(f, env, fuel).Unfinished?
  {
    var (step, c) := (W.Steps(Flatten(f)), Start(f, env));
    var n: nat :| W.Walk(step, c, n) == Some(d);
    fuel := n + 1;
    CallRuns(f, env, fuel);
    W.WalkAdd(step, c, n, 1);
  }

  /** The flat code returns exactly what the function ends with, and panics exactly where it traps. */
  lemma FlatIsStructured(f: Func, env: Env, d: W.Config)
    requires NeverStuck(f, env)
    ensures W.Returns(W.Steps(Flatten(f)), Start(f, env), d)
       <==> exists vals, env' :: Ends(f, env, vals, env') && d == Returned(f, vals, env')
    ensures W.Panics(W.Steps(Flatten(f)), Start(f, env)) <==> EndsInTrap(f, env)
  {
    var (step, c) := (W.Steps(Flatten(f)), Start(f, env));
    hide Call, Flatten, Start;
    forall fuel
      ensures CallAgrees(f, env, fuel, Call(f, env, fuel))
    {
      CallRuns(f, env, fuel);
    }
    if W.Returns(step, c, d) {
      var fuel := NotForever(f, env, d);
      W.ReturnsOrPanics(step, c, d);
      var out := Call(f, env, fuel);
      assert out.Falls? && CallAgrees(f, env, fuel, out);
      assert Ends(f, env, out.own, out.env);
    }
    if W.Panics(step, c) {
      var e :| W.Reaches(step, c, e) && step(e) == W.Trap;
      var fuel := NotForever(f, env, e);
      var out := Call(f, env, fuel);
      assert CallAgrees(f, env, fuel, out);
      if out.Falls? {
        W.ReturnsOrPanics(step, c, Returned(f, out.own, out.env));
      }
    }
  }
}
