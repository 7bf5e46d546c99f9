/**
 * What the symbolic machine's state stands for once the inputs are fixed, and what it means for a piece
 * of symbolic execution to follow the concrete one.
 */
module Simulation {
  import opened SymValues
  import opened SymMemory
  import opened Lowering
  import opened Wasm
  import P = Pointers

  function ConcVals(vals: seq<nat>, vs: seq<V>): (r: seq<nat>)
    ensures |r| == |vs|
    ensures forall i :: 0 <= i < |vs| ==> r[i] == Val(vals, vs[i])
  {
    seq(|vs|, i requires 0 <= i < |vs| => Val(vals, vs[i]))
  }

  function ConcState(vals: seq<nat>, st: State<V>): State<nat> {
    State(st.pc, ConcVals(vals, st.stack), ConcVals(vals, st.locals), ConcVals(vals, st.globals), st.ctl)
  }

  ghost predicate OkVs(vs: seq<V>, syms: seq<Sym>) {
    forall i :: 0 <= i < |vs| ==> Narrow(syms, vs[i])
  }

  ghost predicate OkState(st: State<V>, syms: seq<Sym>) {
    OkVs(st.stack, syms) && OkVs(st.locals, syms) && OkVs(st.globals, syms)
  }

  /** Where execution continues, and with what memory: in one state, or in one of two by a condition. */
  datatype Origin =
    | At(st: State<V>, cells: seq<Cell>)
    | Either(cond: nat, t: State<V>, tc: seq<Cell>, e: State<V>, ec: seq<Cell>)

  /** A memory access the machine came to: under which guards, in which state, with which symbols and
      requirements; and its pointer, offset, size and kind. */
  datatype Access = Access(guards: seq<Lit>, st: State<V>, cells: seq<Cell>, syms: seq<Sym>, reqs: seq<Req>,
                           a: V, off: nat, size: nat, store: bool)

  /** A symbolic state, the symbols it is over, what the circuit requires so far, and the accesses made so far. */
  datatype View = View(from: Origin, syms: seq<Sym>, reqs: seq<Req>, log: seq<Access>)

  ghost predicate OkOrigin(o: Origin, syms: seq<Sym>) {
    match o
    case At(st, cells) => OkState(st, syms) && OkCells(cells, |syms|)
    case Either(cond, t, tc, e, ec) =>
      && IsCond(syms, cond)
      && OkState(t, syms) && OkState(e, syms) && OkCells(tc, |syms|) && OkCells(ec, |syms|)
  }

  ghost predicate OkView(p: View) {
    OkSyms(p.syms) && OkReqs(p.reqs, p.syms) && OkOrigin(p.from, p.syms)
  }

  ghost function ConcAt(vals: seq<nat>, st: State<V>, cells: seq<Cell>): Config {
    Config(ConcState(vals, st), CellVals(vals, cells))
  }

  /** The concrete state `p` stands for under `inp`. */
  ghost function Conc(p: View, inp: Inputs): Config {
    var vals := Valuation(p.syms, inp);
    match p.from
    case At(st, cells) => ConcAt(vals, st, cells)
    case Either(cond, t, tc, e, ec) => if Val(vals, V(0, cond)) != 0 then ConcAt(vals, t, tc) else ConcAt(vals, e, ec)
  }

  /** From `c`, execution reaches `d` if `ok`; if not it traps, unless the input strays. */
  ghost predicate Follows(step: Stepper, c: Config, ok: bool, lost: bool, d: Config) {
    if ok then Reaches(step, c, d) else Panics(step, c) || lost
  }

  /** `inp` takes every guard and meets the requirements made so far. */
  ghost predicate OnPath(guards: seq<Lit>, reqs: seq<Req>, syms: seq<Sym>, inp: Inputs) {
    var vals := Valuation(syms, inp);
    Taken(guards, vals) && AllBind(reqs, 0, vals)
  }

  /**
   * `inp` comes to the access and strays there: the address held is in bounds, but another leaf of the pointer's
   * selects is not. Of the stores only those through a select of two constants stray.
   */
  ghost predicate StraysAt(e: Access, inp: Inputs) {
    && OnPath(e.guards, e.reqs, e.syms, inp)
    && P.Strays(e.syms, e.a, e.off, e.size, |e.cells|, inp)
    && (e.store ==> P.ConcreteSelect(e.syms, e.a))
  }

  ghost predicate StraysIn(log: seq<Access>, inp: Inputs) {
    exists k :: 0 <= k < |log| && StraysAt(log[k], inp)
  }

  /** For inputs on the path to `p`: if the new requirements hold, the concrete run from `p` reaches `q`; if one
      fails, it traps or strays at an access. */
  ghost predicate RunsTo(step: Stepper, guards: seq<Lit>, p: View, q: View) {
    && p.syms <= q.syms && Under(guards, p.reqs, q.reqs) && p.log <= q.log
    && forall inp ::
         OnPath(guards, p.reqs, p.syms, inp) ==>
           Follows(step, Conc(p, inp), AllBind(q.reqs, |p.reqs|, Valuation(q.syms, inp)), StraysIn(q.log, inp),
             Conc(q, inp))
  }

  /** For inputs on the path to `p`, the concrete run from there traps, or strays at an access. */
  ghost predicate Diverges(step: Stepper, guards: seq<Lit>, p: View, log: seq<Access>) {
    forall inp :: OnPath(guards, p.reqs, p.syms, inp) ==> Panics(step, Conc(p, inp)) || StraysIn(log, inp)
  }

  /** A piece of execution that ended with status `r`. */
  ghost predicate Advances(step: Stepper, guards: seq<Lit>, r: Status, p: View, q: View) {
    && OkView(q) && OkGuards(guards, q.syms)
    && p.syms <= q.syms && Under(guards, p.reqs, q.reqs)
    && (r.Ok? ==> RunsTo(step, guards, p, q))
    && (r.Diverged? ==> p.log <= q.log && Diverges(step, guards, p, q.log))
  }

  // ----- paths -----

  lemma OnPathStable(guards: seq<Lit>, reqs: seq<Req>, syms: seq<Sym>, more: seq<Sym>, inp: Inputs)
    requires OkGuards(guards, syms) && OkReqs(reqs, syms) && syms <= more
    ensures OnPath(guards, reqs, more, inp) <==> OnPath(guards, reqs, syms, inp)
  {
    TakenStable(guards, syms, more, inp);
    AllBindStable(reqs, 0, syms, more, inp);
  }

  lemma OnPathSplit(guards: seq<Lit>, reqs: seq<Req>, more: seq<Req>, syms: seq<Sym>, inp: Inputs)
    requires reqs <= more
    ensures OnPath(guards, more, syms, inp)
       <==> OnPath(guards, reqs, syms, inp) && AllBind(more, |reqs|, Valuation(syms, inp))
  {
    AllBindSplit([], reqs, more, Valuation(syms, inp));
  }

  /** An input on the path to `q` was on the path to `p`, and met what was required since. */
  lemma OnPathBack(guards: seq<Lit>, p: View, q: View, inp: Inputs)
    requires OkView(p) && OkGuards(guards, p.syms) && p.syms <= q.syms && p.reqs <= q.reqs
    ensures OnPath(guards, q.reqs, q.syms, inp)
       <==> OnPath(guards, p.reqs, p.syms, inp) && AllBind(q.reqs, |p.reqs|, Valuation(q.syms, inp))
  {
    OnPathStable(guards, p.reqs, p.syms, q.syms, inp);
    OnPathSplit(guards, p.reqs, q.reqs, q.syms, inp);
  }

  lemma StraysMore(log: seq<Access>, more: seq<Access>, inp: Inputs)
    requires log <= more && StraysIn(log, inp)
    ensures StraysIn(more, inp)
  {
    var k :| 0 <= k < |log| && StraysAt(log[k], inp);
    assert more[k] == log[k];
  }

  /** From the start, every input on the path to `p` reaches it. */
  ghost predicate Found(step: Stepper, start: Inputs -> Config, guards: seq<Lit>, p: View) {
    forall inp :: OnPath(guards, p.reqs, p.syms, inp) ==> Reaches(step, start(inp), Conc(p, inp))
  }

  lemma FoundNext(step: Stepper, start: Inputs -> Config, guards: seq<Lit>, p: View, q: View)
    requires OkView(p) && OkGuards(guards, p.syms)
    requires Found(step, start, guards, p) && Advances(step, guards, Ok, p, q)
    ensures Found(step, start, guards, q)
  {
    hide Reaches, Conc, OkView, OkGuards, StraysIn;
    forall inp | OnPath(guards, q.reqs, q.syms, inp)
      ensures Reaches(step, start(inp), Conc(q, inp))
    {
      OnPathBack(guards, p, q, inp);
      ReachesTrans(step, start(inp), Conc(p, inp), Conc(q, inp));
    }
  }

  // ----- stability -----

  lemma OkVsStable(vs: seq<V>, syms: seq<Sym>, more: seq<Sym>)
    requires syms <= more && OkVs(vs, syms)
    ensures OkVs(vs, more)
  {
    forall i | 0 <= i < |vs|
      ensures Narrow(more, vs[i])
    {
      NarrowStable(syms, more, vs[i]);
    }
  }

  lemma OkStateStable(st: State<V>, syms: seq<Sym>, more: seq<Sym>)
    requires syms <= more && OkState(st, syms)
    ensures OkState(st, more)
  {
    OkVsStable(st.stack, syms, more);
    OkVsStable(st.locals, syms, more);
    OkVsStable(st.globals, syms, more);
  }

  lemma OperandNarrow(st: State<V>, syms: seq<Sym>, k: nat)
    requires OkState(st, syms) && k < |st.stack|
    ensures Narrow(syms, st.stack[k])
  {
  }

  lemma ConcValsStable(vs: seq<V>, syms: seq<Sym>, more: seq<Sym>, inp: Inputs)
    requires syms <= more && OkVs(vs, syms)
    ensures ConcVals(Valuation(more, inp), vs) == ConcVals(Valuation(syms, inp), vs)
  {
    ValuationPrefix(syms, more, inp);
    forall i | 0 <= i < |vs|
      ensures Val(Valuation(more, inp), vs[i]) == Val(Valuation(syms, inp), vs[i])
    {
      NarrowOk(syms, vs[i]);
    }
  }

  lemma ConcStateStable(st: State<V>, syms: seq<Sym>, more: seq<Sym>, inp: Inputs)
    requires syms <= more && OkState(st, syms)
    ensures ConcState(Valuation(more, inp), st) == ConcState(Valuation(syms, inp), st)
  {
    ConcValsStable(st.stack, syms, more, inp);
    ConcValsStable(st.locals, syms, more, inp);
    ConcValsStable(st.globals, syms, more, inp);
  }

  lemma ConcAtStable(st: State<V>, cells: seq<Cell>, syms: seq<Sym>, more: seq<Sym>, inp: Inputs)
    requires syms <= more && OkState(st, syms) && OkCells(cells, |syms|)
    ensures ConcAt(Valuation(more, inp), st, cells) == ConcAt(Valuation(syms, inp), st, cells)
  {
    ValuationPrefix(syms, more, inp);
    CellValsStable(Valuation(syms, inp), Valuation(more, inp), cells);
    ConcStateStable(st, syms, more, inp);
  }

  /** New symbols change nothing that was there. */
  lemma ConcStable(p: View, q: View, inp: Inputs)
    requires OkView(p) && p.syms <= q.syms && q.from == p.from
    ensures Conc(q, inp) == Conc(p, inp)
  {
    match p.from {
      case At(st, cells) => ConcAtStable(st, cells, p.syms, q.syms, inp);
      case Either(cond, t, tc, e, ec) =>
        ValuationPrefix(p.syms, q.syms, inp);
        ConcAtStable(t, tc, p.syms, q.syms, inp);
        ConcAtStable(e, ec, p.syms, q.syms, inp);
    }
  }

  lemma OkOriginStable(o: Origin, syms: seq<Sym>, more: seq<Sym>)
    requires syms <= more && OkOrigin(o, syms)
    ensures OkOrigin(o, more)
  {
    match o {
      case At(st, cells) => OkStateStable(st, syms, more);
      case Either(cond, t, tc, e, ec) =>
        OkStateStable(t, syms, more);
        OkStateStable(e, syms, more);
    }
  }

  // ----- composition -----

  lemma RunsTrans(step: Stepper, guards: seq<Lit>, p: View, q: View, r: View)
    requires OkView(p) && OkView(q) && OkGuards(guards, p.syms)
    requires RunsTo(step, guards, p, q) && RunsTo(step, guards, q, r)
    ensures RunsTo(step, guards, p, r)
  {
    hide StraysIn, Follows, Conc, OnPath;
    UnderTrans(guards, p.reqs, q.reqs, r.reqs);
    forall inp | OnPath(guards, p.reqs, p.syms, inp)
      ensures Follows(step, Conc(p, inp), AllBind(r.reqs, |p.reqs|, Valuation(r.syms, inp)), StraysIn(r.log, inp),
        Conc(r, inp))
    {
      RunsTransAt(step, guards, p, q, r, inp);
    }
  }

  lemma RunsTransAt(step: Stepper, guards: seq<Lit>, p: View, q: View, r: View, inp: Inputs)
    requires OkView(p) && OkView(q) && OkGuards(guards, p.syms) && OnPath(guards, p.reqs, p.syms, inp)
    requires RunsTo(step, guards, p, q) && RunsTo(step, guards, q, r)
    ensures Follows(step, Conc(p, inp), AllBind(r.reqs, |p.reqs|, Valuation(r.syms, inp)), StraysIn(r.log, inp),
      Conc(r, inp))
  {
    hide Conc, Reaches, Panics, StraysAt;
    OnPathBack(guards, p, q, inp);
    AllBindStable(q.reqs, |p.reqs|, q.syms, r.syms, inp);
    AllBindSplit(p.reqs, q.reqs, r.reqs, Valuation(r.syms, inp));
    if StraysIn(q.log, inp) {
      StraysMore(q.log, r.log, inp);
    }
    hide StraysIn;
    if AllBind(q.reqs, |p.reqs|, Valuation(q.syms, inp)) {
      FollowsTrans(step, Conc(p, inp), Conc(q, inp), AllBind(r.reqs, |q.reqs|, Valuation(r.syms, inp)),
        StraysIn(r.log, inp), Conc(r, inp));
    }
  }

  lemma FollowsTrans(step: Stepper, c: Config, d: Config, ok: bool, lost: bool, e: Config)
    requires Reaches(step, c, d) && Follows(step, d, ok, lost, e)
    ensures Follows(step, c, ok, lost, e)
  {
    if ok {
      ReachesTrans(step, c, d, e);
    } else if Panics(step, d) {
      PanicsLater(step, c, d);
    }
  }

  lemma DivergesLater(step: Stepper, guards: seq<Lit>, p: View, q: View, log: seq<Access>)
    requires OkView(p) && OkView(q) && OkGuards(guards, p.syms) && q.log <= log
    requires RunsTo(step, guards, p, q) && Diverges(step, guards, q, log)
    ensures Diverges(step, guards, p, log)
  {
    hide Conc, Reaches, Panics, StraysIn, OnPath;
    forall inp | OnPath(guards, p.reqs, p.syms, inp)
      ensures Panics(step, Conc(p, inp)) || StraysIn(log, inp)
    {
      OnPathBack(guards, p, q, inp);
      if AllBind(q.reqs, |p.reqs|, Valuation(q.syms, inp)) {
        if Panics(step, Conc(q, inp)) {
          PanicsLater(step, Conc(p, inp), Conc(q, inp));
        }
      } else if StraysIn(q.log, inp) {
        StraysMore(q.log, log, inp);
      }
    }
  }

  /** Going on from where a piece of execution paused. */
  lemma AdvancesTrans(step: Stepper, guards: seq<Lit>, p: View, q: View, r: Status, z: View)
    requires OkView(p) && OkGuards(guards, p.syms)
    requires Advances(step, guards, Ok, p, q) && Advances(step, guards, r, q, z)
    ensures Advances(step, guards, r, p, z)
  {
    hide StraysIn, Follows, Conc, OnPath, OkView, OkGuards, AllBind;
    UnderTrans(guards, p.reqs, q.reqs, z.reqs);
    if r.Ok? {
      RunsTrans(step, guards, p, q, z);
    } else if r.Diverged? {
      DivergesLater(step, guards, p, q, z.log);
    }
  }

  lemma AdvancesSelf(step: Stepper, guards: seq<Lit>, p: View)
    requires OkView(p) && OkGuards(guards, p.syms)
    ensures Advances(step, guards, Ok, p, p)
  {
    forall inp
      ensures Reaches(step, Conc(p, inp), Conc(p, inp))
    {
      ReachesSelf(step, Conc(p, inp));
    }
  }

  /** From `s0`, the control stack dropped to at most `stop` labels, the ones that were there. */
  ghost predicate Lowered(s0: State<V>, stop: nat, s1: State<V>) {
    && |s1.ctl| <= stop
    && SameSize(s0, s1)
    && (|s0.ctl| <= stop ==> s1 == s0)
    && s1.ctl <= s0.ctl
  }

  /** A journal opened after `js` undoes all that was written since. */
  lemma JournaledOne(js: seq<seq<JournalEntry>>, cells: seq<Cell>, js1: seq<seq<JournalEntry>>, cells1: seq<Cell>)
    requires Journaled(js + [[]], cells, js1, cells1)
    ensures |js1| == |js| + 1 && js1[..|js|] == js && |cells| == |cells1|
    ensures forall i :: 0 <= i < |js1[|js|]| ==> js1[|js|][i].addr + |js1[|js|][i].before| <= |cells1|
    ensures Undo(js1[|js|], cells1) == cells
  {
    assert (js + [[]])[..|js|] == js;
    assert js1[|js|][0..] == js1[|js|];
  }

  ghost predicate SameSize(s0: State<V>, s1: State<V>) {
    |s1.locals| == |s0.locals| && |s1.globals| == |s0.globals|
  }
}
