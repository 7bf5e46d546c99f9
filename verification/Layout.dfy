/**
 * The layout of valid code once flattened: at each offset that is come to, the labels and the height of the stack are
 * always the same. So what is come to always fits its instruction, and where a label is left is one offset, or the
 * start of a loop around it.
 */
module Layout {
  import opened Words
  import W = Wasm
  import opened Control
  import opened Structured
  import opened Validation

  /** The labels before an instruction, innermost last; the height of the stack; and where the innermost label ends. */
  datatype Slot = Slot(ctl: seq<W.Ctl>, height: nat, end: nat)

  /** Where code of flow `flow` ends, on a stack of its own above `base`. */
  function After(flow: Flow, ctl: seq<W.Ctl>, base: nat, end: nat): Option<Slot> {
    if flow.Leaves? then Some(Slot(ctl, base + flow.height, end)) else None
  }

  function Nones(n: nat): (r: seq<Option<Slot>>)
    ensures |r| == n
  {
    seq(n, _ => None)
  }

  /** The labels around code, what they take, and the stack under it. */
  datatype Place = Place(labels: seq<nat>, ctl: seq<W.Ctl>, base: nat, end: nat, scope: Scope) {
    /** Under one more label. */
    function Inside(k: W.Ctl, last: nat): Place {
      Place([k.arity] + labels, ctl + [k], k.height, last, scope)
    }
  }

  function Slots(i: Instr, at: nat, pl: Place, own: nat): (r: seq<Option<Slot>>)
    requires FlowOf(i, pl.labels, own, pl.scope) != Bad
    ensures |r| == Size(i) && r[0] == Some(Slot(pl.ctl, pl.base + own, pl.end))
    decreases i, 0
  {
    var here := Some(Slot(pl.ctl, pl.base + own, pl.end));
    match i
    case Block(body, params, results) =>
      var end := at + 1 + Length(body);
      var inner := pl.Inside(W.Ctl(end, false, pl.base + own - params, results), end);
      [here] + SlotsAll(body, at + 1, inner, params)
        + [After(FlowAll(body, inner.labels, params, pl.scope), inner.ctl, inner.base, end)]
    case Loop(body, params, results) =>
      var end := at + 1 + Length(body);
      var inner := pl.Inside(W.Ctl(at + 1, true, pl.base + own - params, params), end);
      [here] + SlotsAll(body, at + 1, inner, params)
        + [After(FlowAll(body, inner.labels, params, pl.scope), inner.ctl, inner.base, end)]
    case If(yes, params, results) =>
      var end := at + 1 + Length(yes);
      var inner := pl.Inside(W.Ctl(end, false, pl.base + own - 1 - params, results), end);
      [here] + SlotsAll(yes, at + 1, inner, params) + [Some(Slot(inner.ctl, inner.base + results, end))]
    case IfElse(yes, no, params, results) =>
      var mid := at + 1 + Length(yes);
      var end := mid + 1 + Length(no);
      var inner := pl.Inside(W.Ctl(end, false, pl.base + own - 1 - params, results), end);
      var (first, second) := (FlowAll(yes, inner.labels, params, pl.scope),
        FlowAll(no, inner.labels, params, pl.scope));
      [here] + SlotsAll(yes, at + 1, inner, params) + [After(first, inner.ctl, inner.base, end)]
        + SlotsAll(no, mid + 1, inner, params)
        + [After(if first.Leaves? then first else second, inner.ctl, inner.base, end)]
    case _ => [here]
  }

  function SlotsAll(code: Code, at: nat, pl: Place, own: nat): (r: seq<Option<Slot>>)
    requires FlowAll(code, pl.labels, own, pl.scope) != Bad
    ensures |r| == Length(code)
    decreases code, 0
  {
    match code
    case Done => []
    case Then(i, rest) =>
      Slots(i, at, pl, own)
        + match FlowOf(i, pl.labels, own, pl.scope)
          case Leaves(next) => SlotsAll(rest, at + Size(i), pl, next)
          case _ => Nones(Length(rest))
  }

  /** Around the body of a function. */
  function Outer(f: Func, scope: Scope): Place {
    Place([f.results], [W.Ctl(Length(f.body), false, 0, f.results)], 0, Length(f.body), scope)
  }

  function SlotsOf(f: Func, scope: Scope): (r: seq<Option<Slot>>)
    requires Valid(f, scope)
    ensures |r| == |Flatten(f)|
  {
    SlotsAll(f.body, 0, Outer(f, scope), 0)
      + [After(FlowAll(f.body, [f.results], 0, scope), Outer(f, scope).ctl, 0, Length(f.body))]
  }

  // ----- what the slots say -----

  /** Slots stand at offset `at`. */
  ghost predicate Stand(all: seq<Option<Slot>>, at: nat, part: seq<Option<Slot>>) {
    at + |part| <= |all| && all[at..at + |part|] == part
  }

  ghost predicate IsSlot(all: seq<Option<Slot>>, pc: nat, ctl: seq<W.Ctl>, height: nat) {
    pc < |all| && all[pc].Some? && all[pc].value.ctl == ctl && all[pc].value.height == height
  }

  /** The outline is at its slot, or past the end of the code. */
  ghost predicate Legit(all: seq<Option<Slot>>, scope: Scope, s: Outline) {
    && |s.locals| == scope.locals && |s.globals| == scope.globals
    && if s.ctl == [] then s.pc == |all| else IsSlot(all, s.pc, s.ctl, |s.stack|)
  }

  /** The outline fits the instruction it is at. */
  ghost predicate Fits(prog: seq<W.Op>, s: Outline) {
    && s.pc < |prog| && |s.stack| >= W.Operands(prog[s.pc])
    && var op := prog[s.pc];
      && (op.If? ==> op.params < |s.stack|)
      && (op.BrIf? ==> W.Jump(|prog|, s.Pop(1), op.depth).Some?)
      && (W.Moves(op) ==> W.Shape(|prog|, op, s).Some?)
  }

  /** From the slot at `pc` instructions lead to slots. */
  ghost predicate ClosedAt(prog: seq<W.Op>, all: seq<Option<Slot>>, scope: Scope, pc: nat) {
    && |all| == |prog|
    && forall s: Outline :: s.pc == pc && s.ctl != [] && Legit(all, scope, s) ==>
         Fits(prog, s) && forall t: Outline :: Onward(prog, s, t) ==> Legit(all, scope, t)
  }

  /** Where the label ends. */
  function EndOf(all: seq<Option<Slot>>, k: W.Ctl): nat {
    if k.isLoop && k.brPc < |all| && all[k.brPc].Some? then all[k.brPc].value.end else k.brPc
  }

  /** A branch to a label lands at a slot. */
  ghost predicate Lands(all: seq<Option<Slot>>, ctl: seq<W.Ctl>, j: nat)
    requires j < |ctl|
  {
    var k := ctl[j];
    if k.isLoop then IsSlot(all, k.brPc, ctl[..j + 1], k.height + k.arity)
    else j == 0 || IsSlot(all, k.brPc + 1, ctl[..j], k.height + k.arity)
  }

  /** The labels before `pc`: branches to them land, they are nested, and the last of them ends at `end`. */
  ghost predicate Around(all: seq<Option<Slot>>, ctl: seq<W.Ctl>, pc: nat, end: nat) {
    && ctl != [] && !ctl[0].isLoop && end == EndOf(all, ctl[|ctl| - 1])
    && (forall j :: 0 <= j < |ctl| ==> Lands(all, ctl, j))
    && (forall j :: 0 <= j < |ctl| && ctl[j].isLoop ==> ctl[j].brPc <= pc)
    && (forall i, j :: 0 <= j < i < |ctl| && ctl[j].isLoop ==> ctl[j].brPc <= ctl[i].brPc)
  }

  /** At the end of a label the stack is as a branch there would leave it. */
  ghost predicate GoodSlot(prog: seq<W.Op>, all: seq<Option<Slot>>, pc: nat) {
    pc < |all| == |prog| && (all[pc].Some? ==>
      var Slot(ctl, height, end) := all[pc].value;
      && Around(all, ctl, pc, end)
      && (prog[pc] == W.End ==> end == pc && FullHeight(ctl[|ctl| - 1], height)))
  }

  predicate FullHeight(k: W.Ctl, height: nat) {
    k.isLoop || height == k.height + k.arity
  }

  // ----- one instruction -----

  ghost predicate Whole(prog: seq<W.Op>, all: seq<Option<Slot>>, scope: Scope, pc: nat) {
    ClosedAt(prog, all, scope, pc) && GoodSlot(prog, all, pc)
  }

  /** The instruction at `at` has its slot, and what it leads to by falling through has one. */
  ghost predicate Here(prog: seq<W.Op>, all: seq<Option<Slot>>, at: nat, op: W.Op, pl: Place, own: nat, flow: Flow) {
    && at < |prog| == |all| && prog[at] == op && all[at] == Some(Slot(pl.ctl, pl.base + own, pl.end))
    && OkLabels(pl.labels, pl.ctl, pl.base) && Around(all, pl.ctl, at, pl.end)
    && flow != Bad && (flow.Leaves? ==> IsSlot(all, at + 1, pl.ctl, pl.base + flow.height))
  }

  lemma PlainClosed(prog: seq<W.Op>, all: seq<Option<Slot>>, at: nat, op: W.Op, pl: Place, own: nat)
    requires Here(prog, all, at, op, pl, own, PlainFlow(op, own, pl.scope))
    ensures ClosedAt(prog, all, pl.scope, at)
  {
    hide OkLabels, Around;
    forall s: Outline | s.pc == at && s.ctl != [] && Legit(all, pl.scope, s)
      ensures Fits(prog, s) && forall t: Outline :: Onward(prog, s, t) ==> Legit(all, pl.scope, t)
    {
      PlainNext(prog, all, at, op, pl, own, s);
    }
  }

  lemma PlainNext(prog: seq<W.Op>, all: seq<Option<Slot>>, at: nat, op: W.Op, pl: Place, own: nat, s: Outline)
    requires Here(prog, all, at, op, pl, own, PlainFlow(op, own, pl.scope))
    requires s.pc == at && s.ctl != [] && Legit(all, pl.scope, s)
    ensures Fits(prog, s) && forall t: Outline :: Onward(prog, s, t) ==> Legit(all, pl.scope, t)
  {
    hide OkLabels, Around;
  }

  lemma BranchLands(prog: seq<W.Op>, all: seq<Option<Slot>>, pl: Place, depth: nat, s: Outline)
    requires OkLabels(pl.labels, pl.ctl, pl.base) && (forall j :: 0 <= j < |pl.ctl| ==> Lands(all, pl.ctl, j))
    requires |all| == |prog| && s.ctl == pl.ctl && |s.stack| >= pl.base
    requires Carries(pl.labels, depth, |s.stack| - pl.base)
    requires !pl.ctl[0].isLoop && |s.locals| == pl.scope.locals && |s.globals| == pl.scope.globals
    ensures var r := W.Jump(|prog|, s, depth);
      r.Some? && Legit(all, pl.scope, r.value)
  {
    assert Lands(all, pl.ctl, |pl.ctl| - 1 - depth);
  }

  lemma BrClosed(prog: seq<W.Op>, all: seq<Option<Slot>>, at: nat, depth: nat, op: W.Op, pl: Place, own: nat)
    requires op == W.Op.Br(depth) || (op == W.Op.Return && depth == |pl.ctl| - 1)
    requires Carries(pl.labels, depth, own) && Here(prog, all, at, op, pl, own, Dead)
    ensures ClosedAt(prog, all, pl.scope, at)
  {
    hide OkLabels, W.Jump, Lands;
    forall s: Outline | s.pc == at && s.ctl != [] && Legit(all, pl.scope, s)
      ensures Fits(prog, s) && forall t: Outline :: Onward(prog, s, t) ==> Legit(all, pl.scope, t)
    {
      BranchLands(prog, all, pl, depth, s);
    }
  }

  lemma BrIfClosed(prog: seq<W.Op>, all: seq<Option<Slot>>, at: nat, depth: nat, pl: Place, own: nat)
    requires own > 0 && Carries(pl.labels, depth, own - 1)
    requires Here(prog, all, at, W.Op.BrIf(depth), pl, own, Leaves(own - 1))
    ensures ClosedAt(prog, all, pl.scope, at)
  {
    hide OkLabels, W.Jump, Lands;
    forall s: Outline | s.pc == at && s.ctl != [] && Legit(all, pl.scope, s)
      ensures Fits(prog, s) && forall t: Outline :: Onward(prog, s, t) ==> Legit(all, pl.scope, t)
    {
      BranchLands(prog, all, pl, depth, s.Pop(1));
    }
  }

  /** Before a label: where its code starts, or its two arms do. */
  lemma EnterClosed(prog: seq<W.Op>, all: seq<Option<Slot>>, at: nat, op: W.Op, pl: Place, own: nat, k: W.Ctl,
                    params: nat)
    requires at < |prog| == |all| && prog[at] == op && all[at] == Some(Slot(pl.ctl, pl.base + own, pl.end))
    requires k.height + params == pl.base + (if op.If? then own - 1 else own) && (op.If? ==> own > params)
    requires match op
      case Block(end, p, a) => p == params && k == W.Ctl(end, false, k.height, a)
      case Loop(p) => p == params && k == W.Ctl(at + 1, true, k.height, p)
      case If(mid, end, p, a) =>
        && p == params && k == W.Ctl(end, false, k.height, a)
        && IsSlot(all, if mid != 0 then mid + 1 else end, pl.ctl + [k], k.height + params)
      case _ => false
    requires IsSlot(all, at + 1, pl.ctl + [k], k.height + params)
    ensures ClosedAt(prog, all, pl.scope, at)
  {
  }

  /** At the end of a label, and over the second arm of a conditional. */
  lemma EndClosed(prog: seq<W.Op>, all: seq<Option<Slot>>, pc: nat, ctl: seq<W.Ctl>, k: W.Ctl, scope: Scope)
    requires pc < |prog| == |all| && prog[pc] == W.End
    requires all[pc].Some? ==> all[pc].value.ctl == ctl + [k]
    requires all[pc].Some? && ctl != [] ==> IsSlot(all, pc + 1, ctl, all[pc].value.height)
    ensures ClosedAt(prog, all, scope, pc)
  {
    assert (ctl + [k])[..|ctl|] == ctl;
  }

  lemma ElseClosed(prog: seq<W.Op>, all: seq<Option<Slot>>, pc: nat, end: nat, scope: Scope)
    requires pc < |prog| == |all| && prog[pc] == W.Else(end)
    requires all[pc].Some? ==> IsSlot(all, end, all[pc].value.ctl, all[pc].value.height)
    ensures ClosedAt(prog, all, scope, pc)
  {
  }

  // ----- whole code -----

  /** Code and its slots stand at `at`, under labels that fit. */
  ghost predicate Laid(prog: seq<W.Op>, all: seq<Option<Slot>>, at: nat, ops: seq<W.Op>, slots: seq<Option<Slot>>,
                       pl: Place) {
    && |all| == |prog| && Placed(prog, at, ops) && Stand(all, at, slots) && |ops| == |slots|
    && OkLabels(pl.labels, pl.ctl, pl.base) && Around(all, pl.ctl, at, pl.end)
  }

  /** Where code of that flow falls out, there is a slot. */
  ghost predicate Leads(all: seq<Option<Slot>>, pc: nat, pl: Place, flow: Flow) {
    flow.Leaves? ==> pc < |all| && all[pc] == Some(Slot(pl.ctl, pl.base + flow.height, pl.end))
  }

  ghost predicate WholeFrom(prog: seq<W.Op>, all: seq<Option<Slot>>, scope: Scope, at: nat, n: nat) {
    forall pc :: at <= pc < at + n ==> Whole(prog, all, scope, pc)
  }

  lemma StandParts(all: seq<Option<Slot>>, at: nat, a: seq<Option<Slot>>, b: seq<Option<Slot>>)
    requires Stand(all, at, a + b)
    ensures Stand(all, at, a) && Stand(all, at + |a|, b)
  {
    var part := a + b;
    assert all[at..at + |a|] == all[at..at + |part|][..|a|] == a;
    assert all[at + |a|..at + |a| + |b|] == all[at..at + |part|][|a|..] == b;
  }

  lemma StandOne(all: seq<Option<Slot>>, at: nat, slots: seq<Option<Slot>>, j: nat)
    requires Stand(all, at, slots) && j < |slots|
    ensures at + j < |all| && all[at + j] == slots[j]
  {
    assert all[at..at + |slots|][j] == all[at + j];
  }

  lemma LaidParts(prog: seq<W.Op>, all: seq<Option<Slot>>, at: nat, ops: seq<W.Op>, more: seq<W.Op>,
                  slots: seq<Option<Slot>>, others: seq<Option<Slot>>, pl: Place)
    requires Laid(prog, all, at, ops + more, slots + others, pl) && |ops| == |slots|
    ensures Laid(prog, all, at, ops, slots, pl) && Laid(prog, all, at + |ops|, more, others, pl)
  {
    PlacedParts(prog, at, ops, more);
    StandParts(all, at, slots, others);
    AroundLater(all, pl.ctl, at, pl.end, at + |ops|);
  }

  /** Code starts at a slot. */
  lemma StartsAtSlot(all: seq<Option<Slot>>, code: Code, at: nat, pl: Place, own: nat)
    requires FlowAll(code, pl.labels, own, pl.scope) != Bad && Stand(all, at, SlotsAll(code, at, pl, own))
    requires Leads(all, at + Length(code), pl, FlowAll(code, pl.labels, own, pl.scope))
    ensures Leads(all, at, pl, Leaves(own))
  {
    if code.Then? {
      StandOne(all, at, SlotsAll(code, at, pl, own), 0);
    }
  }

  lemma NothingThere(prog: seq<W.Op>, all: seq<Option<Slot>>, scope: Scope, at: nat, n: nat)
    requires |all| == |prog| && Stand(all, at, Nones(n))
    ensures WholeFrom(prog, all, scope, at, n)
  {
    forall pc | at <= pc < at + n
      ensures Whole(prog, all, scope, pc)
    {
      StandOne(all, at, Nones(n), pc - at);
    }
  }

  lemma {:induction false} AllWhole(prog: seq<W.Op>, all: seq<Option<Slot>>, code: Code, at: nat, pl: Place, own: nat)
    requires FlowAll(code, pl.labels, own, pl.scope) != Bad
    requires Laid(prog, all, at, FlatAll(code, at), SlotsAll(code, at, pl, own), pl)
    requires Leads(all, at + Length(code), pl, FlowAll(code, pl.labels, own, pl.scope))
    ensures WholeFrom(prog, all, pl.scope, at, Length(code))
    decreases code, 0
  {
    hide Whole, Around, OkLabels, Placed, Stand, Flat, Slots, FlowOf;
    if code.Then? {
      var (i, rest) := (code.head, code.rest);
      var (flow, next) := (FlowOf(i, pl.labels, own, pl.scope), at + Size(i));
      var others := if flow.Leaves? then SlotsAll(rest, next, pl, flow.height) else Nones(Length(rest));
      LaidParts(prog, all, at, Flat(i, at), FlatAll(rest, next), Slots(i, at, pl, own), others, pl);
      if flow.Leaves? {
        StartsAtSlot(all, rest, next, pl, flow.height);
        AllWhole(prog, all, rest, next, pl, flow.height);
      } else {
        NothingThere(prog, all, pl.scope, next, Length(rest));
      }
      OneWhole(prog, all, i, at, pl, own);
    }
  }

  lemma {:induction false} OneWhole(prog: seq<W.Op>, all: seq<Option<Slot>>, i: Instr, at: nat, pl: Place, own: nat)
    requires FlowOf(i, pl.labels, own, pl.scope) != Bad
    requires Laid(prog, all, at, Flat(i, at), Slots(i, at, pl, own), pl)
    requires Leads(all, at + Size(i), pl, FlowOf(i, pl.labels, own, pl.scope))
    ensures WholeFrom(prog, all, pl.scope, at, Size(i))
    decreases i, 1
  {
    match i {
      case Block(_, _, _) => BlockWhole(prog, all, i, at, pl, own);
      case Loop(_, _, _) => LoopWhole(prog, all, i, at, pl, own);
      case If(_, _, _) => IfWhole(prog, all, i, at, pl, own);
      case IfElse(_, _, _, _) => IfElseWhole(prog, all, i, at, pl, own);
      case _ => SimpleWhole(prog, all, i, at, pl, own);
    }
  }

  lemma NotAnEnd(op: W.Op, own: nat, scope: Scope)
    requires PlainFlow(op, own, scope) != Bad
    ensures op != W.End
  {
  }

  lemma SimpleWhole(prog: seq<W.Op>, all: seq<Option<Slot>>, i: Instr, at: nat, pl: Place, own: nat)
    requires i.Do? || i.Br? || i.BrIf? || i.Return?
    requires FlowOf(i, pl.labels, own, pl.scope) != Bad
    requires Laid(prog, all, at, Flat(i, at), Slots(i, at, pl, own), pl)
    requires Leads(all, at + Size(i), pl, FlowOf(i, pl.labels, own, pl.scope))
    ensures WholeFrom(prog, all, pl.scope, at, Size(i))
  {
    hide Around, OkLabels, ClosedAt, PlainFlow, Placed, Stand;
    PlacedOne(prog, at, Flat(i, at)[0]);
    StandOne(all, at, Slots(i, at, pl, own), 0);
    match i {
      case Do(op) =>
        NotAnEnd(op, own, pl.scope);
        PlainClosed(prog, all, at, op, pl, own);
      case Br(depth) => BrClosed(prog, all, at, depth, W.Op.Br(depth), pl, own);
      case BrIf(depth) => BrIfClosed(prog, all, at, depth, pl, own);
      case Return =>
        SameDepth(pl.labels, pl.ctl, pl.base);
        BrClosed(prog, all, at, |pl.ctl| - 1, W.Op.Return, pl, own);
    }
  }

  /** The labels inside a label. */
  lemma AroundInside(all: seq<Option<Slot>>, ctl: seq<W.Ctl>, at: nat, last: nat, k: W.Ctl, first: nat, end: nat)
    requires Around(all, ctl, at, last) && at <= first && end == EndOf(all, k)
    requires at <= k.brPc && (k.isLoop ==> k.brPc <= first)
    requires if k.isLoop then IsSlot(all, k.brPc, ctl + [k], k.height + k.arity)
             else IsSlot(all, k.brPc + 1, ctl, k.height + k.arity)
    ensures Around(all, ctl + [k], first, end)
  {
    var inner := ctl + [k];
    assert inner[..|ctl|] == ctl && inner[..|ctl| + 1] == inner;
    forall j | 0 <= j < |inner|
      ensures Lands(all, inner, j)
    {
      if j < |ctl| {
        assert Lands(all, ctl, j);
        assert inner[..j] == ctl[..j] && inner[..j + 1] == ctl[..j + 1];
      }
    }
  }

  lemma AroundLater(all: seq<Option<Slot>>, ctl: seq<W.Ctl>, at: nat, end: nat, pc: nat)
    requires Around(all, ctl, at, end) && at <= pc
    ensures Around(all, ctl, pc, end)
  {
    hide Lands;
  }

  /** The code of a label, or of an arm. */
  lemma {:induction false} InsideWhole(prog: seq<W.Op>, all: seq<Option<Slot>>, code: Code, first: nat, pl: Place,
                                       k: W.Ctl, own: nat, end: nat)
    requires |all| == |prog| && OkLabels(pl.labels, pl.ctl, pl.base) && pl.base <= k.height
    requires Around(all, pl.ctl + [k], first, end)
    requires var inner := pl.Inside(k, end);
      && FlowAll(code, inner.labels, own, pl.scope) != Bad
      && Placed(prog, first, FlatAll(code, first)) && Stand(all, first, SlotsAll(code, first, inner, own))
      && Leads(all, first + Length(code), inner, FlowAll(code, inner.labels, own, pl.scope))
    ensures WholeFrom(prog, all, pl.scope, first, Length(code))
    decreases code, 1
  {
    hide OkLabels, Around, Placed, Stand, Whole;
    MoreLabels(pl.labels, pl.ctl, pl.base, k, k.height);
    AllWhole(prog, all, code, first, pl.Inside(k, end), own);
  }

  /** The instruction that opens a label. */
  lemma OpenWhole(prog: seq<W.Op>, all: seq<Option<Slot>>, at: nat, pl: Place, own: nat)
    requires at < |prog| == |all| && all[at] == Some(Slot(pl.ctl, pl.base + own, pl.end)) && prog[at] != W.End
    requires ClosedAt(prog, all, pl.scope, at) && Around(all, pl.ctl, at, pl.end)
    ensures Whole(prog, all, pl.scope, at)
  {
  }

  /** The instruction that ends a label, and is left for what follows. */
  lemma CloseWhole(prog: seq<W.Op>, all: seq<Option<Slot>>, end: nat, pl: Place, k: W.Ctl, flow: Flow, first: nat)
    requires end < |prog| == |all| && prog[end] == W.End && first <= end && Around(all, pl.ctl + [k], first, end)
    requires all[end] == After(flow, pl.ctl + [k], k.height, end)
    requires flow.Leaves? ==>
      FullHeight(k, k.height + flow.height) && (pl.ctl != [] ==> IsSlot(all, end + 1, pl.ctl, k.height + flow.height))
    ensures Whole(prog, all, pl.scope, end)
  {
    hide Around;
    EndClosed(prog, all, end, pl.ctl, k, pl.scope);
    AroundLater(all, pl.ctl + [k], first, end, end);
  }

  lemma ElseWhole(prog: seq<W.Op>, all: seq<Option<Slot>>, mid: nat, end: nat, pl: Place, k: W.Ctl, flow: Flow,
                  first: nat)
    requires mid < |prog| == |all| && prog[mid] == W.Else(end) && first <= mid && Around(all, pl.ctl + [k], first, end)
    requires all[mid] == After(flow, pl.ctl + [k], k.height, end)
    requires flow.Leaves? ==> IsSlot(all, end, pl.ctl + [k], k.height + flow.height)
    ensures Whole(prog, all, pl.scope, mid)
  {
    hide Around;
    ElseClosed(prog, all, mid, end, pl.scope);
    AroundLater(all, pl.ctl + [k], first, end, mid);
  }

  lemma Joins(prog: seq<W.Op>, all: seq<Option<Slot>>, scope: Scope, at: nat, n: nat, m: nat)
    requires WholeFrom(prog, all, scope, at, n) && WholeFrom(prog, all, scope, at + n, m)
    ensures WholeFrom(prog, all, scope, at, n + m)
  {
  }

  lemma LabelWhole(prog: seq<W.Op>, all: seq<Option<Slot>>, scope: Scope, at: nat, n: nat)
    requires Whole(prog, all, scope, at) && WholeFrom(prog, all, scope, at + 1, n)
      && Whole(prog, all, scope, at + 1 + n)
    ensures WholeFrom(prog, all, scope, at, n + 2)
  {
  }

  /** Where the slots of a label's code stand. */
  lemma StandInside(all: seq<Option<Slot>>, at: nat, first: Option<Slot>, body: seq<Option<Slot>>, last: Option<Slot>)
    requires Stand(all, at, [first] + body + [last])
    ensures Stand(all, at + 1, body)
    ensures at + 1 + |body| < |all| && all[at] == first && all[at + 1 + |body|] == last
  {
    StandOne(all, at, [first] + body + [last], 0);
    StandOne(all, at, [first] + body + [last], 1 + |body|);
    StandParts(all, at, [first] + body, [last]);
    StandParts(all, at, [first], body);
  }

  /** A label from the instruction that opens it to its end. */
  lemma {:induction false} LabelIsWhole(prog: seq<W.Op>, all: seq<Option<Slot>>, code: Code, at: nat, pl: Place,
                                        own: nat, k: W.Ctl, params: nat, flow: Flow)
    requires OkLabels(pl.labels, pl.ctl, pl.base) && pl.base <= k.height && Around(all, pl.ctl, at, pl.end)
    requires var end := at + 1 + Length(code);
      var inner := pl.Inside(k, end);
      && end < |prog| == |all| && Around(all, inner.ctl, at + 1, end)
      && FlowAll(code, inner.labels, params, pl.scope) != Bad
      && Placed(prog, at + 1, FlatAll(code, at + 1)) && Stand(all, at + 1, SlotsAll(code, at + 1, inner, params))
      && Leads(all, end, inner, FlowAll(code, inner.labels, params, pl.scope))
      && prog[end] == W.End && all[end] == After(flow, inner.ctl, inner.base, end)
      && (flow.Leaves? ==>
        FullHeight(k, k.height + flow.height) && IsSlot(all, end + 1, pl.ctl, k.height + flow.height))
      && all[at] == Some(Slot(pl.ctl, pl.base + own, pl.end)) && prog[at] != W.End
    requires ClosedAt(prog, all, pl.scope, at)
    ensures WholeFrom(prog, all, pl.scope, at, Length(code) + 2)
    decreases code, 2
  {
    hide Around, OkLabels, ClosedAt, Placed, Stand, Whole, FlowAll, SlotsAll, FlatAll;
    var end := at + 1 + Length(code);
    InsideWhole(prog, all, code, at + 1, pl, k, params, end);
    OpenWhole(prog, all, at, pl, own);
    CloseWhole(prog, all, end, pl, k, flow, at + 1);
    LabelWhole(prog, all, pl.scope, at, Length(code));
  }

  lemma {:induction false} BlockWhole(prog: seq<W.Op>, all: seq<Option<Slot>>, i: Instr, at: nat, pl: Place, own: nat)
    requires i.Block? && FlowOf(i, pl.labels, own, pl.scope) != Bad
    requires Laid(prog, all, at, Flat(i, at), Slots(i, at, pl, own), pl)
    requires Leads(all, at + Size(i), pl, FlowOf(i, pl.labels, own, pl.scope))
    ensures WholeFrom(prog, all, pl.scope, at, Size(i))
    decreases i, 0
  {
    hide Around, OkLabels, ClosedAt, Placed, Stand, Whole, FlowAll, SlotsAll, Flat, FlatAll;
    var Block(body, params, results) := i;
    var end := at + 1 + Length(body);
    var k := W.Ctl(end, false, pl.base + own - params, results);
    var inner := pl.Inside(k, end);
    var flow := FlowAll(body, inner.labels, params, pl.scope);
    BlockPlaced(prog, i, at);
    StandInside(all, at, Some(Slot(pl.ctl, pl.base + own, pl.end)), SlotsAll(body, at + 1, inner, params),
      After(flow, inner.ctl, inner.base, end));
    hide Slots, FlowOf;
    StartsAtSlot(all, body, at + 1, inner, params);
    AroundInside(all, pl.ctl, at, pl.end, k, at + 1, end);
    EnterClosed(prog, all, at, prog[at], pl, own, k, params);
    LabelIsWhole(prog, all, body, at, pl, own, k, params, flow);
  }

  lemma {:induction false} LoopWhole(prog: seq<W.Op>, all: seq<Option<Slot>>, i: Instr, at: nat, pl: Place, own: nat)
    requires i.Loop? && FlowOf(i, pl.labels, own, pl.scope) != Bad
    requires Laid(prog, all, at, Flat(i, at), Slots(i, at, pl, own), pl)
    requires Leads(all, at + Size(i), pl, FlowOf(i, pl.labels, own, pl.scope))
    ensures WholeFrom(prog, all, pl.scope, at, Size(i))
    decreases i, 0
  {
    hide Around, OkLabels, ClosedAt, Placed, Stand, Whole, FlowAll, SlotsAll, Flat, FlatAll;
    var Loop(body, params, results) := i;
    var end := at + 1 + Length(body);
    var k := W.Ctl(at + 1, true, pl.base + own - params, params);
    var inner := pl.Inside(k, end);
    var flow := FlowAll(body, inner.labels, params, pl.scope);
    LoopPlaced(prog, i, at);
    StandInside(all, at, Some(Slot(pl.ctl, pl.base + own, pl.end)), SlotsAll(body, at + 1, inner, params),
      After(flow, inner.ctl, inner.base, end));
    hide Slots, FlowOf;
    StartsAtSlot(all, body, at + 1, inner, params);
    AroundInside(all, pl.ctl, at, pl.end, k, at + 1, end);
    EnterClosed(prog, all, at, prog[at], pl, own, k, params);
    LabelIsWhole(prog, all, body, at, pl, own, k, params, flow);
  }

  lemma {:induction false} IfWhole(prog: seq<W.Op>, all: seq<Option<Slot>>, i: Instr, at: nat, pl: Place, own: nat)
    requires i.If? && FlowOf(i, pl.labels, own, pl.scope) != Bad
    requires Laid(prog, all, at, Flat(i, at), Slots(i, at, pl, own), pl)
    requires Leads(all, at + Size(i), pl, FlowOf(i, pl.labels, own, pl.scope))
    ensures WholeFrom(prog, all, pl.scope, at, Size(i))
    decreases i, 0
  {
    hide Around, OkLabels, ClosedAt, Placed, Stand, Whole, FlowAll, SlotsAll, Flat, FlatAll;
    var If(yes, params, results) := i;
    var end := at + 1 + Length(yes);
    var k := W.Ctl(end, false, pl.base + own - 1 - params, results);
    var inner := pl.Inside(k, end);
    IfPlaced(prog, i, at);
    StandInside(all, at, Some(Slot(pl.ctl, pl.base + own, pl.end)), SlotsAll(yes, at + 1, inner, params),
      Some(Slot(inner.ctl, inner.base + results, end)));
    hide Slots, FlowOf;
    StartsAtSlot(all, yes, at + 1, inner, params);
    AroundInside(all, pl.ctl, at, pl.end, k, at + 1, end);
    EnterClosed(prog, all, at, prog[at], pl, own, k, params);
    LabelIsWhole(prog, all, yes, at, pl, own, k, params, Leaves(results));
  }

  /** The second arm of a conditional, from the end of the first on. */
  lemma {:induction false} SecondWhole(prog: seq<W.Op>, all: seq<Option<Slot>>, no: Code, mid: nat, pl: Place, k: W.Ctl,
                                       params: nat, first: Flow, flow: Flow, at: nat)
    requires OkLabels(pl.labels, pl.ctl, pl.base) && pl.base <= k.height && at <= mid
    requires var end := mid + 1 + Length(no);
      var inner := pl.Inside(k, end);
      && end < |prog| == |all| && Around(all, inner.ctl, at, end)
      && FlowAll(no, inner.labels, params, pl.scope) != Bad
      && Placed(prog, mid + 1, FlatAll(no, mid + 1)) && Stand(all, mid + 1, SlotsAll(no, mid + 1, inner, params))
      && Leads(all, end, inner, FlowAll(no, inner.labels, params, pl.scope))
      && prog[mid] == W.Else(end) && all[mid] == After(first, inner.ctl, inner.base, end)
      && (first.Leaves? ==> IsSlot(all, end, inner.ctl, k.height + first.height))
      && prog[end] == W.End && all[end] == After(flow, inner.ctl, inner.base, end)
      && (flow.Leaves? ==>
        FullHeight(k, k.height + flow.height) && IsSlot(all, end + 1, pl.ctl, k.height + flow.height))
    ensures WholeFrom(prog, all, pl.scope, mid, Length(no) + 2)
    decreases no, 2
  {
    hide Around, OkLabels, ClosedAt, Placed, Stand, Whole, FlowAll, SlotsAll, FlatAll;
    var end := mid + 1 + Length(no);
    AroundLater(all, pl.ctl + [k], at, end, mid + 1);
    InsideWhole(prog, all, no, mid + 1, pl, k, params, end);
    ElseWhole(prog, all, mid, end, pl, k, first, at);
    CloseWhole(prog, all, end, pl, k, flow, at);
    LabelWhole(prog, all, pl.scope, mid, Length(no));
  }

  /** A conditional and its slots, part by part. */
  ghost predicate Armed(prog: seq<W.Op>, all: seq<Option<Slot>>, i: Instr, at: nat, pl: Place, own: nat, k: W.Ctl)
    requires i.IfElse?
  {
    var mid := at + 1 + Length(i.yes);
    var end := mid + 1 + Length(i.no);
    var inner := pl.Inside(k, end);
    var (first, second) := (FlowAll(i.yes, inner.labels, i.params, pl.scope),
      FlowAll(i.no, inner.labels, i.params, pl.scope));
    var flow := if first.Leaves? then first else second;
    && |all| == |prog| && end < |prog| && own > i.params
    && k == W.Ctl(end, false, pl.base + own - 1 - i.params, i.results)
    && Validation.Ends(first, i.results) && Validation.Ends(second, i.results)
    && prog[at] == W.Op.If(mid, end, i.params, i.results) && prog[mid] == W.Else(end) && prog[end] == W.End
    && Placed(prog, at + 1, FlatAll(i.yes, at + 1)) && Placed(prog, mid + 1, FlatAll(i.no, mid + 1))
    && Stand(all, at + 1, SlotsAll(i.yes, at + 1, inner, i.params))
    && Stand(all, mid + 1, SlotsAll(i.no, mid + 1, inner, i.params))
    && all[at] == Some(Slot(pl.ctl, pl.base + own, pl.end)) && all[mid] == After(first, inner.ctl, inner.base, end)
    && all[end] == After(flow, inner.ctl, inner.base, end)
  }

  lemma IfElseArmed(prog: seq<W.Op>, all: seq<Option<Slot>>, i: Instr, at: nat, pl: Place, own: nat, k: W.Ctl)
    requires i.IfElse? && FlowOf(i, pl.labels, own, pl.scope) != Bad && |all| == |prog|
    requires Placed(prog, at, Flat(i, at)) && Stand(all, at, Slots(i, at, pl, own))
    requires k == W.Ctl(at + 1 + Length(i.yes) + 1 + Length(i.no), false, pl.base + own - 1 - i.params, i.results)
    ensures Armed(prog, all, i, at, pl, own, k)
  {
    hide Placed, Stand, FlowAll, SlotsAll, FlatAll;
    var mid := at + 1 + Length(i.yes);
    var end := mid + 1 + Length(i.no);
    var inner := pl.Inside(k, end);
    var (first, second) := (FlowAll(i.yes, inner.labels, i.params, pl.scope),
      FlowAll(i.no, inner.labels, i.params, pl.scope));
    IfElsePlaced(prog, i, at);
    StandBoth(all, at, Some(Slot(pl.ctl, pl.base + own, pl.end)), SlotsAll(i.yes, at + 1, inner, i.params),
      After(first, inner.ctl, inner.base, end), SlotsAll(i.no, mid + 1, inner, i.params),
      After(if first.Leaves? then first else second, inner.ctl, inner.base, end));
  }

  lemma {:induction false} IfElseWhole(prog: seq<W.Op>, all: seq<Option<Slot>>, i: Instr, at: nat, pl: Place, own: nat)
    requires i.IfElse? && FlowOf(i, pl.labels, own, pl.scope) != Bad
    requires Laid(prog, all, at, Flat(i, at), Slots(i, at, pl, own), pl)
    requires Leads(all, at + Size(i), pl, FlowOf(i, pl.labels, own, pl.scope))
    ensures WholeFrom(prog, all, pl.scope, at, Size(i))
    decreases i, 0, 1
  {
    hide Around, OkLabels, Placed, Stand, Whole, FlowAll, SlotsAll, Flat, FlatAll, WholeFrom, Slots, Armed;
    var mid := at + 1 + Length(i.yes);
    var k := W.Ctl(mid + 1 + Length(i.no), false, pl.base + own - 1 - i.params, i.results);
    IfElseArmed(prog, all, i, at, pl, own, k);
    ArmsWhole(prog, all, i, at, pl, own, k);
  }

  /** The first arm of a conditional, from the instruction that opens it. */
  lemma {:induction false} FirstWhole(prog: seq<W.Op>, all: seq<Option<Slot>>, yes: Code, at: nat, pl: Place, own: nat,
                                      k: W.Ctl, params: nat, end: nat)
    requires OkLabels(pl.labels, pl.ctl, pl.base) && pl.base <= k.height && Around(all, pl.ctl, at, pl.end)
    requires at < |prog| == |all| && Around(all, pl.ctl + [k], at + 1, end) && ClosedAt(prog, all, pl.scope, at)
    requires all[at] == Some(Slot(pl.ctl, pl.base + own, pl.end)) && prog[at] != W.End
    requires var inner := pl.Inside(k, end);
      && FlowAll(yes, inner.labels, params, pl.scope) != Bad
      && Placed(prog, at + 1, FlatAll(yes, at + 1)) && Stand(all, at + 1, SlotsAll(yes, at + 1, inner, params))
      && Leads(all, at + 1 + Length(yes), inner, FlowAll(yes, inner.labels, params, pl.scope))
    ensures WholeFrom(prog, all, pl.scope, at, Length(yes) + 1)
    decreases yes, 2
  {
    hide Around, OkLabels, ClosedAt, Placed, Stand, Whole, FlowAll, SlotsAll, FlatAll, WholeFrom, Leads;
    InsideWhole(prog, all, yes, at + 1, pl, k, params, end);
    OpenWhole(prog, all, at, pl, own);
    OneMore(prog, all, pl.scope, at, Length(yes));
  }

  lemma {:induction false} ArmsWhole(prog: seq<W.Op>, all: seq<Option<Slot>>, i: Instr, at: nat, pl: Place, own: nat,
                                     k: W.Ctl)
    requires i.IfElse? && Armed(prog, all, i, at, pl, own, k)
    requires OkLabels(pl.labels, pl.ctl, pl.base) && Around(all, pl.ctl, at, pl.end)
    requires IsSlot(all, k.brPc + 1, pl.ctl, k.height + i.results)
    ensures WholeFrom(prog, all, pl.scope, at, Size(i))
    decreases i, 0, 0
  {
    hide Around, OkLabels, ClosedAt, Placed, Stand, Whole, FlowAll, SlotsAll, FlatAll, WholeFrom;
    var IfElse(yes, no, params, results) := i;
    var mid := at + 1 + Length(yes);
    var end := mid + 1 + Length(no);
    var inner := pl.Inside(k, end);
    var (first, second) := (FlowAll(yes, inner.labels, params, pl.scope), FlowAll(no, inner.labels, params, pl.scope));
    StartsAtSlot(all, yes, at + 1, inner, params);
    StartsAtSlot(all, no, mid + 1, inner, params);
    AroundInside(all, pl.ctl, at, pl.end, k, at + 1, end);
    EnterClosed(prog, all, at, prog[at], pl, own, k, params);
    FirstWhole(prog, all, yes, at, pl, own, k, params, end);
    SecondWhole(prog, all, no, mid, pl, k, params, first, if first.Leaves? then first else second, at + 1);
    Joins(prog, all, pl.scope, at, Length(yes) + 1, Length(no) + 2);
  }

  lemma OneMore(prog: seq<W.Op>, all: seq<Option<Slot>>, scope: Scope, at: nat, n: nat)
    requires Whole(prog, all, scope, at) && WholeFrom(prog, all, scope, at + 1, n)
    ensures WholeFrom(prog, all, scope, at, n + 1)
  {
  }

  lemma StandBoth(all: seq<Option<Slot>>, at: nat, first: Option<Slot>, yes: seq<Option<Slot>>, middle: Option<Slot>,
                  no: seq<Option<Slot>>, last: Option<Slot>)
    requires Stand(all, at, [first] + yes + [middle] + no + [last])
    ensures var mid := at + 1 + |yes|;
      var end := mid + 1 + |no|;
      && end < |all| && all[at] == first && all[mid] == middle && all[end] == last
      && Stand(all, at + 1, yes) && Stand(all, mid + 1, no)
  {
    StandParts(all, at, [first] + yes + [middle] + no, [last]);
    StandOne(all, at + 1 + |yes| + 1 + |no|, [last], 0);
    StandParts(all, at, [first] + yes + [middle], no);
    StandInside(all, at, first, yes, middle);
  }

  // ----- a whole function -----

  lemma FunctionWhole(f: Func, scope: Scope)
    requires Valid(f, scope)
    ensures WholeFrom(Flatten(f), SlotsOf(f, scope), scope, 0, |Flatten(f)|)
  {
    hide FlowAll, SlotsAll, FlatAll, Placed, Stand, OkLabels, Whole;
    var (prog, all, pl, n) := (Flatten(f), SlotsOf(f, scope), Outer(f, scope), Length(f.body));
    var flow := FlowAll(f.body, pl.labels, 0, scope);
    BodyLaid(f, scope);
    AllWhole(prog, all, f.body, 0, pl, 0);
    assert pl.ctl == [] + [pl.ctl[0]];
    CloseWhole(prog, all, n, Place([], [], 0, n, scope), pl.ctl[0], flow, 0);
    LastWhole(prog, all, scope, n);
  }

  lemma BodyLaid(f: Func, scope: Scope)
    requires Valid(f, scope)
    ensures var pl := Outer(f, scope);
      && Laid(Flatten(f), SlotsOf(f, scope), 0, FlatAll(f.body, 0), SlotsAll(f.body, 0, pl, 0), pl)
      && Leads(SlotsOf(f, scope), Length(f.body), pl, FlowAll(f.body, pl.labels, 0, scope))
      && Flatten(f)[Length(f.body)] == W.End
      && SlotsOf(f, scope)[Length(f.body)] == After(FlowAll(f.body, pl.labels, 0, scope), pl.ctl, 0, Length(f.body))
  {
  }

  lemma LastWhole(prog: seq<W.Op>, all: seq<Option<Slot>>, scope: Scope, n: nat)
    requires WholeFrom(prog, all, scope, 0, n) && Whole(prog, all, scope, n)
    ensures WholeFrom(prog, all, scope, 0, n + 1)
  {
  }

  /** Where a function starts. */
  ghost predicate Starts(f: Func, scope: Scope, s: Outline) {
    && s.pc == 0 && s.stack == [] && s.ctl == [W.Ctl(Length(f.body), false, 0, f.results)]
    && |s.locals| == scope.locals && |s.globals| == scope.globals
  }

  lemma StartLegit(f: Func, scope: Scope, s: Outline)
    requires Valid(f, scope) && Starts(f, scope, s)
    ensures Legit(SlotsOf(f, scope), scope, s)
  {
    BodyLaid(f, scope);
    StartsAtSlot(SlotsOf(f, scope), f.body, 0, Outer(f, scope), 0);
  }

  lemma {:induction false} TrailLegit(prog: seq<W.Op>, all: seq<Option<Slot>>, scope: Scope, trail: seq<Outline>,
                                      n: nat)
    requires WholeFrom(prog, all, scope, 0, |prog|) && |all| == |prog| && IsTrail(prog, trail)
    requires n < |trail| && Legit(all, scope, trail[0])
    ensures Legit(all, scope, trail[n])
  {
    hide Onward, GoodSlot;
    if n > 0 {
      TrailLegit(prog, all, scope, trail, n - 1);
      var s := trail[n - 1];
      assert Onward(prog, s, trail[n]);
      assert s.ctl != [] && s.pc < |prog| by {
        OnwardFrom(prog, s, trail[n]);
      }
      assert Whole(prog, all, scope, s.pc);
    }
  }

  lemma OnwardFrom(prog: seq<W.Op>, s: Outline, t: Outline)
    requires Onward(prog, s, t)
    ensures s.ctl != [] && s.pc < |prog|
  {
  }

  /** Whatever a valid function comes to is at its slot, and fits its instruction unless the function has ended. */
  lemma AlwaysFits(f: Func, scope: Scope, s0: Outline, s: Outline)
    requires Valid(f, scope) && Starts(f, scope, s0) && Led(Flatten(f), s0, s)
    ensures Legit(SlotsOf(f, scope), scope, s) && (s.ctl != [] ==> Fits(Flatten(f), s))
  {
    hide Onward, Flatten, SlotsOf, Fits, GoodSlot;
    var (prog, all) := (Flatten(f), SlotsOf(f, scope));
    FunctionWhole(f, scope);
    StartLegit(f, scope, s0);
    var trail :| IsTrail(prog, trail) && trail != [] && trail[0] == s0 && trail[|trail| - 1] == s;
    TrailLegit(prog, all, scope, trail, |trail| - 1);
    if s.ctl != [] {
      assert Whole(prog, all, scope, s.pc);
    }
  }

  // ----- where arms meet -----

  /** At the start of the innermost label, a loop's. */
  predicate Back(s: Outline) {
    s.ctl != [] && s.ctl[|s.ctl| - 1].isLoop && s.pc == s.ctl[|s.ctl| - 1].brPc
  }

  /** Where the label of `labels` just above those of `s` is left: past its end, or at the start of the loop around. */
  ghost predicate LeftAt(all: seq<Option<Slot>>, labels: seq<W.Ctl>, s: Outline) {
    && |s.ctl| < |labels|
    && var k := labels[|s.ctl|];
      if s.ctl == [] then s.pc == |all| && |s.stack| == k.height + k.arity
      else Back(s) || (s.pc == EndOf(all, k) + 1 && !Back(s))
  }

  lemma JumpLeaves(all: seq<Option<Slot>>, prev: Outline, n: nat, depth: nat, pc: nat, end: nat)
    requires Around(all, prev.ctl, pc, end) && W.Jump(n, prev, depth).Some? && n == |all|
    ensures var s := W.Jump(n, prev, depth).value;
      |s.ctl| < |prev.ctl| ==> LeftAt(all, prev.ctl, s)
  {
    var idx := |prev.ctl| - 1 - depth;
    if idx > 0 {
      assert prev.ctl[idx - 1].isLoop ==> prev.ctl[idx - 1].brPc <= prev.ctl[idx].brPc;
    }
  }

  lemma EndLeaves(prog: seq<W.Op>, all: seq<Option<Slot>>, scope: Scope, prev: Outline, s: Outline)
    requires Legit(all, scope, prev) && GoodSlot(prog, all, prev.pc) && prog[prev.pc] == W.End && Onward(prog, prev, s)
    ensures LeftAt(all, prev.ctl, s)
  {
    if |prev.ctl| > 1 {
      assert prev.ctl[|prev.ctl| - 2].isLoop ==> prev.ctl[|prev.ctl| - 2].brPc <= prev.pc;
    }
  }

  lemma OnwardLeaves(prog: seq<W.Op>, all: seq<Option<Slot>>, scope: Scope, prev: Outline, s: Outline)
    requires Legit(all, scope, prev) && prev.pc < |prog| && GoodSlot(prog, all, prev.pc) && Onward(prog, prev, s)
    requires |s.ctl| < |prev.ctl|
    ensures LeftAt(all, prev.ctl, s)
  {
    hide Around, LeftAt;
    var (pc, end) := (prev.pc, all[prev.pc].value.end);
    match prog[pc] {
      case End => EndLeaves(prog, all, scope, prev, s);
      case Br(depth) => JumpLeaves(all, prev, |prog|, depth, pc, end);
      case Return => JumpLeaves(all, prev, |prog|, |prev.ctl| - 1, pc, end);
      case BrIf(depth) => JumpLeaves(all, prev.Pop(1), |prog|, depth, pc, end);
      case _ =>
    }
  }

  /** Only the label left matters. */
  lemma LeavesAt(f: Func, scope: Scope, s0: Outline, labels: seq<W.Ctl>, s: Outline)
    requires Valid(f, scope) && Starts(f, scope, s0) && Left(Flatten(f), s0, labels, s)
    ensures LeftAt(SlotsOf(f, scope), labels, s)
  {
    hide Onward, Flatten, SlotsOf, Fits, ClosedAt, GoodSlot;
    var (prog, all) := (Flatten(f), SlotsOf(f, scope));
    var prev :| Led(prog, s0, prev) && Onward(prog, prev, s) && Shares(prev.ctl, labels, |s.ctl|);
    OnwardFrom(prog, prev, s);
    AlwaysFits(f, scope, s0, prev);
    FunctionWhole(f, scope);
    assert Whole(prog, all, scope, prev.pc);
    OnwardLeaves(prog, all, scope, prev, s);
    assert prev.ctl[|s.ctl|] == prev.ctl[..|s.ctl| + 1][|s.ctl|] == labels[..|s.ctl| + 1][|s.ctl|] == labels[|s.ctl|];
  }

  /**
   * Two arms that left the same labels and are as deep are at one point, with stacks of one height, if both or neither
   * of them went back to the loop around; and at two if only one did.
   */
  lemma ArmsMeet(f: Func, scope: Scope, s0: Outline, labels: seq<W.Ctl>, t: Outline, e: Outline)
    requires Valid(f, scope) && Starts(f, scope, s0)
    requires Left(Flatten(f), s0, labels, t) && Left(Flatten(f), s0, labels, e) && t.ctl == e.ctl
    ensures t.pc == e.pc <==> (Back(t) <==> Back(e))
    ensures t.pc == e.pc ==> |t.stack| == |e.stack|
  {
    hide Onward, Flatten, SlotsOf;
    LeavesAt(f, scope, s0, labels, t);
    LeavesAt(f, scope, s0, labels, e);
    LeftLed(Flatten(f), s0, labels, t);
    LeftLed(Flatten(f), s0, labels, e);
    AlwaysFits(f, scope, s0, t);
    AlwaysFits(f, scope, s0, e);
  }

  /** The arms of a valid function do not meet only where one of them, and not the other, went back to a loop. */
  lemma PartedIff(f: Func, scope: Scope, s0: Outline, t: Outline, e: Outline)
    requires Valid(f, scope) && Starts(f, scope, s0) && t.ctl == e.ctl
    requires exists labels :: Left(Flatten(f), s0, labels, t) && Left(Flatten(f), s0, labels, e)
    ensures Parted(Flatten(f), s0, t, e) <==> Back(t) != Back(e)
  {
    hide Left, Flatten, Starts, Valid;
    var labels :| Left(Flatten(f), s0, labels, t) && Left(Flatten(f), s0, labels, e);
    ArmsMeet(f, scope, s0, labels, t, e);
  }

  // ----- an arm that goes back to a loop -----

  /** `loop { if c { continue } }`, on a local. */
  const RepeatCode: Func :=
    Func(Then(Loop(Then(Do(W.LocalGet(0)), Then(If(Then(Br(1), Done), 0, 0), Done)), 0, 0), Done), 0)

  const RepeatLabels: seq<W.Ctl> := [W.Ctl(6, false, 0, 0), W.Ctl(1, true, 0, 0), W.Ctl(4, false, 0, 0)]

  function RepeatAt(pc: nat, height: nat, labels: nat): Outline
    requires labels <= 3
  {
    W.State(pc, Blank(height), Blank(1), [], RepeatLabels[..labels])
  }

  lemma RepeatFlat()
    ensures Flatten(RepeatCode)
         == [W.Op.Loop(0), W.LocalGet(0), W.Op.If(0, 4, 0, 0), W.Op.Br(1), W.End, W.End, W.End]
    ensures Valid(RepeatCode, Scope(1, 0)) && Starts(RepeatCode, Scope(1, 0), RepeatAt(0, 0, 1))
  {
    var branch := Then(Br(1), Done);
    var body := Then(Do(W.LocalGet(0)), Then(If(branch, 0, 0), Done));
    assert Length(branch) == 1 && Length(body) == 4 && Length(RepeatCode.body) == 6;
    assert FlatAll(branch, 3) == [W.Op.Br(1)];
    assert Flat(If(branch, 0, 0), 2) == [W.Op.If(0, 4, 0, 0), W.Op.Br(1), W.End];
    assert FlatAll(body, 1) == [W.LocalGet(0), W.Op.If(0, 4, 0, 0), W.Op.Br(1), W.End];
  }

  /** The arms of that branch do not meet: the one is back at the start of the loop, the other at its end. */
  lemma RepeatParts()
    ensures var (t, e) := (RepeatAt(1, 0, 2), RepeatAt(5, 0, 2));
      Parted(Flatten(RepeatCode), RepeatAt(0, 0, 1), t, e) && Back(t) && !Back(e)
  {
    RepeatFlat();
    var (prog, s0) := (Flatten(RepeatCode), RepeatAt(0, 0, 1));
    var (t, e) := (RepeatAt(1, 0, 2), RepeatAt(5, 0, 2));
    RepeatSteps(prog);
    LedHere(prog, s0);
    LedOn(prog, s0, s0, t);
    LedOn(prog, s0, t, RepeatAt(2, 1, 2));
    LedOn(prog, s0, RepeatAt(2, 1, 2), RepeatAt(3, 0, 3));
    LedOn(prog, s0, RepeatAt(2, 1, 2), RepeatAt(4, 0, 3));
    LeftBy(prog, s0, RepeatAt(3, 0, 3), t);
    LeftBy(prog, s0, RepeatAt(4, 0, 3), e);
    assert RepeatLabels[..3] == RepeatLabels;
  }

  lemma RepeatSteps(prog: seq<W.Op>)
    requires prog == [W.Op.Loop(0), W.LocalGet(0), W.Op.If(0, 4, 0, 0), W.Op.Br(1), W.End, W.End, W.End]
    ensures Onward(prog, RepeatAt(0, 0, 1), RepeatAt(1, 0, 2)) && Onward(prog, RepeatAt(1, 0, 2), RepeatAt(2, 1, 2))
    ensures Onward(prog, RepeatAt(2, 1, 2), RepeatAt(3, 0, 3)) && Onward(prog, RepeatAt(2, 1, 2), RepeatAt(4, 0, 3))
    ensures Onward(prog, RepeatAt(3, 0, 3), RepeatAt(1, 0, 2)) && Onward(prog, RepeatAt(4, 0, 3), RepeatAt(5, 0, 2))
  {
    BlankIs(Blank(0) + [()]);
    BlankIs(Blank(1)[..0]);
    BlankIs(Blank(0)[..0] + Blank(0)[0..]);
    assert RepeatLabels[..1] + [RepeatLabels[1]] == RepeatLabels[..2];
    assert RepeatLabels[..2] + [RepeatLabels[2]] == RepeatLabels[..3];
    assert RepeatLabels[..3][..2] == RepeatLabels[..2];
  }
}
