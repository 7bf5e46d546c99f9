/**
 * Which structured code is valid, by the rules of section 3.3 of the WebAssembly Core Specification 1.0 for a single
 * value type; and that valid code is never stuck.
 */
module Validation {
  import opened Words
  import S = SymValues
  import opened SymMemory
  import W = Wasm
  import opened Structured

  /** Code that is not valid; code that does not come to its end; or the number of values it ends with. */
  datatype Flow = Bad | Dead | Leaves(height: nat)

  /** The numbers of locals and globals. */
  datatype Scope = Scope(locals: nat, globals: nat)

  /** On a stack of `own` values. */
  function PlainFlow(op: W.Op, own: nat, scope: Scope): Flow {
    match op
    case Nop => Leaves(own)
    case Unreachable => Dead
    case Const(_) => Leaves(own + 1)
    case Drop => Takes(own, 1, 0)
    case Select => Takes(own, 3, 1)
    case LocalGet(i) => if i < scope.locals then Leaves(own + 1) else Bad
    case LocalSet(i) => if i < scope.locals then Takes(own, 1, 0) else Bad
    case LocalTee(i) => if i < scope.locals then Takes(own, 1, 1) else Bad
    case GlobalGet(i) => if i < scope.globals then Leaves(own + 1) else Bad
    case GlobalSet(i) => if i < scope.globals then Takes(own, 1, 0) else Bad
    case Eqz => Takes(own, 1, 1)
    case Binop(_) => Takes(own, 2, 1)
    case Cmpop(_) => Takes(own, 2, 1)
    case Load(_, _) => Takes(own, 1, 1)
    case Store(_, _) => Takes(own, 2, 0)
    case _ => Bad
  }

  function Takes(own: nat, operands: nat, results: nat): Flow {
    if own < operands then Bad else Leaves(own - operands + results)
  }

  function FlowAll(code: Code, labels: seq<nat>, own: nat, scope: Scope): Flow
    decreases code, 0
  {
    match code
    case Done => Leaves(own)
    case Then(i, rest) =>
      match FlowOf(i, labels, own, scope)
      case Leaves(next) => FlowAll(rest, labels, next, scope)
      case flow => flow
  }

  /** Code after a branch is never run, and anything may stand there. */
  function FlowOf(i: Instr, labels: seq<nat>, own: nat, scope: Scope): Flow
    decreases i, 0
  {
    match i
    case Do(op) => PlainFlow(op, own, scope)
    case Block(body, params, results) =>
      if Ends(FlowAll(body, [results] + labels, params, scope), results) then Takes(own, params, results) else Bad
    case Loop(body, params, results) =>
      if Ends(FlowAll(body, [params] + labels, params, scope), results) then Takes(own, params, results) else Bad
    case If(yes, params, results) =>
      if params == results && Ends(FlowAll(yes, [results] + labels, params, scope), results)
      then Takes(own, params + 1, results)
      else Bad
    case IfElse(yes, no, params, results) =>
      if && Ends(FlowAll(yes, [results] + labels, params, scope), results)
         && Ends(FlowAll(no, [results] + labels, params, scope), results)
      then Takes(own, params + 1, results)
      else Bad
    case Br(depth) => if Carries(labels, depth, own) then Dead else Bad
    case BrIf(depth) => if own > 0 && Carries(labels, depth, own - 1) then Leaves(own - 1) else Bad
    case Return => if labels != [] && Carries(labels, |labels| - 1, own) then Dead else Bad
  }

  predicate Carries(labels: seq<nat>, depth: nat, own: nat) {
    depth < |labels| && labels[depth] <= own
  }

  predicate Ends(flow: Flow, results: nat) {
    flow == Dead || flow == Leaves(results)
  }

  predicate Valid(f: Func, scope: Scope) {
    Ends(FlowAll(f.body, [f.results], 0, scope), f.results)
  }

  predicate In(env: Env, scope: Scope) {
    |env.locals| == scope.locals && |env.globals| == scope.globals
  }

  /** The outcome is one the flow allows: never stuck, and branches carry what their labels take. */
  ghost predicate Allowed(flow: Flow, labels: seq<nat>, scope: Scope, out: Out) {
    match out
    case Falls(own, env) => flow == Leaves(|own|) && In(env, scope)
    case Branches(depth, vals, env) => depth < |labels| && |vals| == labels[depth] && In(env, scope)
    case Traps => true
    case Stuck => false
    case Unfinished => true
  }

  lemma PlainAllowed(op: W.Op, labels: seq<nat>, own: seq<nat>, env: Env, scope: Scope)
    requires PlainFlow(op, |own|, scope) != Bad && In(env, scope)
    ensures Allowed(PlainFlow(op, |own|, scope), labels, scope, Plainly(op, own, env))
  {
    hide S.BinVal, S.CmpVal, FromBytes, ToBytes;
  }

  lemma {:induction false} AllAllowed(code: Code, labels: seq<nat>, own: seq<nat>, env: Env, scope: Scope, fuel: nat)
    requires FlowAll(code, labels, |own|, scope) != Bad && In(env, scope)
    ensures Allowed(FlowAll(code, labels, |own|, scope), labels, scope, EvalAll(code, labels, own, env, fuel))
    decreases fuel, code, 0
  {
    if code.Then? {
      AllowedBy(code.head, labels, own, env, scope, fuel);
      var out := Eval(code.head, labels, own, env, fuel);
      if out.Falls? {
        AllAllowed(code.rest, labels, out.own, out.env, scope, fuel);
      }
    }
  }

  lemma {:induction false} AllowedBy(i: Instr, labels: seq<nat>, own: seq<nat>, env: Env, scope: Scope, fuel: nat)
    requires FlowOf(i, labels, |own|, scope) != Bad && In(env, scope)
    ensures Allowed(FlowOf(i, labels, |own|, scope), labels, scope, Eval(i, labels, own, env, fuel))
    decreases fuel, i, 0
  {
    hide Plainly, PlainFlow, FlowAll, EvalAll, Iterate;
    match i {
      case Do(op) => PlainAllowed(op, labels, own, env, scope);
      case Block(body, params, results) =>
        AllAllowed(body, [results] + labels, Top(own, params), env, scope, fuel);
      case Loop(body, params, results) => LoopAllowed(body, params, results, labels, Top(own, params), env, scope,
        fuel);
      case If(yes, params, results) =>
        AllAllowed(yes, [results] + labels, Top(Under(own, 1), params), env, scope, fuel);
      case IfElse(yes, no, params, results) =>
        AllAllowed(if own[|own| - 1] != 0 then yes else no, [results] + labels, Top(Under(own, 1), params), env, scope,
          fuel);
      case _ =>
    }
  }

  lemma {:induction false} LoopAllowed(body: Code, params: nat, results: nat, labels: seq<nat>, args: seq<nat>,
                                       env: Env, scope: Scope, fuel: nat)
    requires Ends(FlowAll(body, [params] + labels, params, scope), results) && |args| == params && In(env, scope)
    ensures var out := Iterate(body, params, labels, args, env, fuel);
      && Allowed(Leaves(results), [results] + labels, scope, out) && !(out.Branches? && out.depth == 0)
    decreases fuel, body, 1
  {
    AllAllowed(body, [params] + labels, args, env, scope, fuel);
    var out := EvalAll(body, [params] + labels, args, env, fuel);
    if out.Branches? && out.depth == 0 && fuel > 0 {
      LoopAllowed(body, params, results, labels, out.vals, out.env, scope, fuel - 1);
    }
  }

  /** A valid function is never stuck, and ends with its number of results. */
  lemma ValidNeverStuck(f: Func, env: Env, scope: Scope)
    requires Valid(f, scope) && In(env, scope)
    ensures NeverStuck(f, env)
    ensures forall vals, env' :: Structured.Ends(f, env, vals, env') ==> |vals| == f.results && In(env', scope)
  {
    forall fuel
      ensures var out := Call(f, env, fuel);
        out != Stuck && (out.Falls? ==> |out.own| == f.results && In(out.env, scope))
    {
      AllAllowed(f.body, [f.results], [], env, scope, fuel);
    }
  }
}
