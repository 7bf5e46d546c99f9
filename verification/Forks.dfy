/** Exploring both arms of a branch on a witness, one piece of either arm at a time. */
module Forks {
  import opened SymValues
  import opened SymMemory
  import opened Lowering
  import opened Wasm
  import opened Simulation

  /** The view of one arm. */
  ghost function Arm(p: View, value: bool): View
    requires p.from.Either?
  {
    if value then p.(from := At(p.from.t, p.from.tc)) else p.(from := At(p.from.e, p.from.ec))
  }

  ghost function WithArm(p: View, value: bool, a: Origin): Origin
    requires p.from.Either? && a.At?
  {
    if value then p.from.(t := a.st, tc := a.cells) else p.from.(e := a.st, ec := a.cells)
  }

  ghost predicate IsTaken(p: View, value: bool, inp: Inputs)
    requires p.from.Either?
  {
    (Val(Valuation(p.syms, inp), V(0, p.from.cond)) != 0) == value
  }

  lemma ArmConc(p: View, value: bool, inp: Inputs)
    requires p.from.Either? && IsTaken(p, value, inp)
    ensures Conc(p, inp) == Conc(Arm(p, value), inp)
  {
  }

  lemma TakenMore(guards: seq<Lit>, lit: Lit, vals: seq<nat>)
    ensures Taken(guards + [lit], vals) <==> Taken(guards, vals) && (Val(vals, V(0, lit.cond)) != 0) == lit.value
  {
    var more := guards + [lit];
    if Taken(more, vals) {
      assert more[|guards|] == lit;
      forall i | 0 <= i < |guards|
        ensures (Val(vals, V(0, guards[i].cond)) != 0) == guards[i].value
      {
        assert more[i] == guards[i];
      }
    }
  }

  /** In an untaken arm nothing new binds. */
  lemma UntakenBinds(guards: seq<Lit>, lit: Lit, reqs0: seq<Req>, reqs1: seq<Req>, vals: seq<nat>)
    requires Under(guards + [lit], reqs0, reqs1) && (Val(vals, V(0, lit.cond)) != 0) != lit.value
    ensures AllBind(reqs1, |reqs0|, vals)
  {
    forall i | |reqs0| <= i < |reqs1|
      ensures Binds(reqs1[i], vals)
    {
      assert guards + [lit] <= reqs1[i].guards;
      assert reqs1[i].guards[|guards|] == lit;
    }
  }

  lemma UnderFewer(guards: seq<Lit>, lit: Lit, reqs0: seq<Req>, reqs1: seq<Req>)
    requires Under(guards + [lit], reqs0, reqs1)
    ensures Under(guards, reqs0, reqs1)
  {
    forall i | |reqs0| <= i < |reqs1|
      ensures guards <= reqs1[i].guards
    {
      assert guards <= guards + [lit] <= reqs1[i].guards;
    }
  }

  /** An input on the path to `p` is on the path to the arm it takes. */
  lemma OnArm(guards: seq<Lit>, p: View, value: bool, inp: Inputs)
    requires p.from.Either?
    ensures OnPath(guards + [Lit(p.from.cond, value)], p.reqs, p.syms, inp)
       <==> OnPath(guards, p.reqs, p.syms, inp) && IsTaken(p, value, inp)
  {
    TakenMore(guards, Lit(p.from.cond, value), Valuation(p.syms, inp));
  }

  lemma FoundArm(step: Stepper, start: Inputs -> Config, guards: seq<Lit>, p: View, value: bool)
    requires p.from.Either? && Found(step, start, guards, p)
    ensures Found(step, start, guards + [Lit(p.from.cond, value)], Arm(p, value))
  {
    hide OnPath, Conc, Reaches;
    forall inp | OnPath(guards + [Lit(p.from.cond, value)], p.reqs, p.syms, inp)
      ensures Reaches(step, start(inp), Conc(Arm(p, value), inp))
    {
      OnArm(guards, p, value, inp);
      ArmConc(p, value, inp);
    }
  }

  /** One arm ran on under its guard: so did the pair. */
  lemma ArmRuns(step: Stepper, guards: seq<Lit>, p: View, value: bool, a: View)
    requires OkView(p) && OkGuards(guards, p.syms) && p.from.Either? && a.from.At? && OkView(a)
    requires RunsTo(step, guards + [Lit(p.from.cond, value)], Arm(p, value), a)
    ensures RunsTo(step, guards, p, a.(from := WithArm(p, value, a.from)))
    ensures OkView(a.(from := WithArm(p, value, a.from)))
  {
    var lit := Lit(p.from.cond, value);
    var q := a.(from := WithArm(p, value, a.from));
    UnderFewer(guards, lit, p.reqs, a.reqs);
    OkOriginStable(p.from, p.syms, a.syms);
    forall inp | OnPath(guards, p.reqs, p.syms, inp)
      ensures Follows(step, Conc(p, inp), AllBind(q.reqs, |p.reqs|, Valuation(q.syms, inp)), StraysIn(q.log, inp),
        Conc(q, inp))
    {
      ArmRunsAt(step, guards, p, value, a, inp);
    }
  }

  lemma ArmRunsAt(step: Stepper, guards: seq<Lit>, p: View, value: bool, a: View, inp: Inputs)
    requires OkView(p) && OkGuards(guards, p.syms) && p.from.Either? && a.from.At? && OkView(a)
    requires RunsTo(step, guards + [Lit(p.from.cond, value)], Arm(p, value), a) && OnPath(guards, p.reqs, p.syms, inp)
    ensures var q := a.(from := WithArm(p, value, a.from));
      Follows(step, Conc(p, inp), AllBind(q.reqs, |p.reqs|, Valuation(q.syms, inp)), StraysIn(q.log, inp), Conc(q, inp))
  {
    hide OnPath, StraysIn, Reaches, Panics;
    var lit := Lit(p.from.cond, value);
    var q := a.(from := WithArm(p, value, a.from));
    OnArm(guards, p, value, inp);
    ValuationPrefix(p.syms, q.syms, inp);
    if IsTaken(p, value, inp) {
      ArmConc(p, value, inp);
      ArmConc(q, value, inp);
    } else {
      UntakenBinds(guards, lit, p.reqs, q.reqs, Valuation(q.syms, inp));
      ArmConc(p, !value, inp);
      ArmConc(q, !value, inp);
      ConcStable(Arm(p, !value), Arm(q, !value), inp);
      ReachesSelf(step, Conc(p, inp));
    }
  }

  /** One arm was seen to panic; what it required on the way binds nothing that matters. */
  lemma ArmGivesUp(step: Stepper, guards: seq<Lit>, p: View, value: bool, a: View)
    requires OkView(p) && OkGuards(guards, p.syms) && p.from.Either? && p.log <= a.log
    requires p.syms <= a.syms && OkSyms(a.syms) && OkReqs(a.reqs, a.syms)
    requires Under(guards + [Lit(p.from.cond, value)], p.reqs, a.reqs)
    requires Diverges(step, guards + [Lit(p.from.cond, value)], Arm(p, value), a.log)
    ensures var q := a.(from := p.from);
      && RunsTo(step, guards, p, q) && OkView(q)
      && Diverges(step, guards + [Lit(p.from.cond, value)], Arm(q, value), q.log)
  {
    hide OnPath, StraysIn, Reaches, Panics;
    var lit := Lit(p.from.cond, value);
    var q := a.(from := p.from);
    UnderFewer(guards, lit, p.reqs, q.reqs);
    OkOriginStable(p.from, p.syms, q.syms);
    DivergesStable(step, guards + [lit], Arm(p, value), Arm(q, value), q.log) by { MoreGuards(guards, p, value); }
    forall inp | OnPath(guards, p.reqs, p.syms, inp)
      ensures Follows(step, Conc(p, inp), AllBind(q.reqs, |p.reqs|, Valuation(q.syms, inp)), StraysIn(q.log, inp),
        Conc(q, inp))
    {
      OnArm(guards, p, value, inp);
      ConcStable(p, q, inp);
      ReachesSelf(step, Conc(p, inp));
      ValuationPrefix(p.syms, q.syms, inp);
      if IsTaken(p, value, inp) {
        ArmConc(p, value, inp);
      } else {
        UntakenBinds(guards, lit, p.reqs, q.reqs, Valuation(q.syms, inp));
      }
    }
  }

  lemma MoreGuards(guards: seq<Lit>, p: View, value: bool)
    requires OkView(p) && OkGuards(guards, p.syms) && p.from.Either?
    ensures OkGuards(guards + [Lit(p.from.cond, value)], p.syms)
  {
  }

  /** One arm can only panic: requiring the other one continues there. */
  lemma ArmDies(step: Stepper, guards: seq<Lit>, p: View, value: bool, q: View)
    requires OkView(p) && OkGuards(guards, p.syms) && p.from.Either?
    requires Diverges(step, guards + [Lit(p.from.cond, value)], Arm(p, value), p.log)
    requires q == View(Arm(p, !value).from, p.syms, p.reqs + [Req(guards, V(0, p.from.cond), !value)], p.log)
    ensures Advances(step, guards, Ok, p, q)
  {
    hide OnPath, StraysIn, Reaches, Panics;
    forall inp | OnPath(guards, p.reqs, p.syms, inp)
      ensures Follows(step, Conc(p, inp), AllBind(q.reqs, |p.reqs|, Valuation(q.syms, inp)), StraysIn(q.log, inp),
        Conc(q, inp))
    {
      OnArm(guards, p, value, inp);
      PathTaken(guards, p.reqs, p.syms, inp);
      var vals := Valuation(q.syms, inp);
      assert AllBind(q.reqs, |p.reqs|, vals) <==> Binds(q.reqs[|p.reqs|], vals);
      if IsTaken(p, value, inp) {
        ArmConc(p, value, inp);
      } else {
        ArmConc(p, !value, inp);
        ReachesSelf(step, Conc(p, inp));
      }
    }
  }

  lemma PathTaken(guards: seq<Lit>, reqs: seq<Req>, syms: seq<Sym>, inp: Inputs)
    requires OnPath(guards, reqs, syms, inp)
    ensures Taken(guards, Valuation(syms, inp))
  {
  }

  /** Both arms can only panic. */
  lemma BothDie(step: Stepper, guards: seq<Lit>, p: View)
    requires p.from.Either?
    requires Diverges(step, guards + [Lit(p.from.cond, true)], Arm(p, true), p.log)
    requires Diverges(step, guards + [Lit(p.from.cond, false)], Arm(p, false), p.log)
    ensures Diverges(step, guards, p, p.log)
  {
    hide OnPath, StraysIn, Panics, Conc;
    forall inp | OnPath(guards, p.reqs, p.syms, inp)
      ensures Panics(step, Conc(p, inp)) || StraysIn(p.log, inp)
    {
      var value := Val(Valuation(p.syms, inp), V(0, p.from.cond)) != 0;
      OnArm(guards, p, value, inp);
      ArmConc(p, value, inp);
    }
  }

  // ----- merging -----

  lemma SelectWider(syms0: seq<Sym>, syms1: seq<Sym>, cond: nat, t: V, e: V, syms2: seq<Sym>, syms3: seq<Sym>, v: V)
    requires syms0 <= syms1 && syms2 <= syms3 && cond < |syms0| && OkV(t, |syms0|) && OkV(e, |syms0|) && OkV(v, |syms2|)
    requires IsSelect(syms1, cond, t, e, syms2, v)
    ensures IsSelect(syms0, cond, t, e, syms3, v)
  {
    forall inp
      ensures var vals := Valuation(syms0, inp);
        Val(Valuation(syms3, inp), v) == if vals[cond] != 0 then Val(vals, t) else Val(vals, e)
    {
      ValuationPrefix(syms0, syms1, inp);
      Stable(syms0, syms1, t, inp);
      Stable(syms0, syms1, e, inp);
      Stable(syms2, syms3, v, inp);
    }
  }

  lemma SelectsValsWider(syms0: seq<Sym>, syms1: seq<Sym>, cond: nat, ts: seq<V>, es: seq<V>, syms2: seq<Sym>,
                         syms3: seq<Sym>, vs: seq<V>)
    requires syms0 <= syms1 && syms2 <= syms3 && cond < |syms0| && OkVs(ts, syms0) && OkVs(es, syms0) && OkVs(vs, syms2)
    requires SelectsVals(syms1, cond, ts, es, syms2, vs)
    ensures SelectsVals(syms0, cond, ts, es, syms3, vs)
  {
    forall i | 0 <= i < |vs|
      ensures IsSelect(syms0, cond, ts[i], es[i], syms3, vs[i])
    {
      NarrowOk(syms0, ts[i]);
      NarrowOk(syms0, es[i]);
      NarrowOk(syms2, vs[i]);
      SelectWider(syms0, syms1, cond, ts[i], es[i], syms2, syms3, vs[i]);
    }
  }

  lemma SelectsWider(syms0: seq<Sym>, syms1: seq<Sym>, cond: nat, tc: seq<Cell>, ec: seq<Cell>, syms2: seq<Sym>,
                     cells: seq<Cell>)
    requires syms0 <= syms1 && cond < |syms0| && OkCells(tc, |syms0|) && OkCells(ec, |syms0|)
    requires Selects(syms1, cond, tc, ec, syms2, cells, 0, |cells|)
    ensures Selects(syms0, cond, tc, ec, syms2, cells, 0, |cells|)
  {
    forall a | 0 <= a < |cells|
      ensures SelectsByte(syms0, cond, tc[a], ec[a], syms2, cells[a])
    {
      SelectsSooner(syms0, syms1, cond, tc[a], ec[a], syms2, cells[a]);
    }
  }

  /** `vs` selects, value by value, between `ts` and `es`. */
  ghost predicate SelectsVals(syms0: seq<Sym>, cond: nat, ts: seq<V>, es: seq<V>, syms1: seq<Sym>, vs: seq<V>) {
    && |ts| == |es| == |vs|
    && forall i :: 0 <= i < |vs| ==> IsSelect(syms0, cond, ts[i], es[i], syms1, vs[i])
  }

  lemma MergedVals(syms0: seq<Sym>, cond: nat, ts: seq<V>, es: seq<V>, syms1: seq<Sym>, vs: seq<V>, inp: Inputs)
    requires SelectsVals(syms0, cond, ts, es, syms1, vs) && 0 < cond < |syms0|
    ensures ConcVals(Valuation(syms1, inp), vs)
      == ConcVals(Valuation(syms0, inp), if Val(Valuation(syms0, inp), V(0, cond)) != 0 then ts else es)
  {
  }

  lemma MergedCells(syms0: seq<Sym>, cond: nat, tc: seq<Cell>, ec: seq<Cell>, syms1: seq<Sym>, cells: seq<Cell>,
                    inp: Inputs)
    requires Selects(syms0, cond, tc, ec, syms1, cells, 0, |cells|) && 0 < cond < |syms0|
    ensures CellVals(Valuation(syms1, inp), cells)
      == CellVals(Valuation(syms0, inp), if Val(Valuation(syms0, inp), V(0, cond)) != 0 then tc else ec)
  {
    forall a | 0 <= a < |cells|
      ensures CellVal(Valuation(syms1, inp), cells[a])
           == CellVal(Valuation(syms0, inp), if Valuation(syms0, inp)[cond] != 0 then tc[a] else ec[a])
    {
      assert SelectsByte(syms0, cond, tc[a], ec[a], syms1, cells[a]);
    }
  }

  /** Two arms at the same point, with the same labels, merge into selects. */
  lemma Merges(step: Stepper, guards: seq<Lit>, p: View, st: State<V>, cells: seq<Cell>, syms: seq<Sym>)
    requires OkView(p) && p.from.Either? && p.syms <= syms && OkSyms(syms) && OkState(st, syms)
      && OkCells(cells, |syms|)
    requires OkReqs(p.reqs, syms)
    requires var (cond, t, e) := (p.from.cond, p.from.t, p.from.e);
      && SelectsVals(p.syms, cond, t.stack, e.stack, syms, st.stack)
      && SelectsVals(p.syms, cond, t.locals, e.locals, syms, st.locals)
      && SelectsVals(p.syms, cond, t.globals, e.globals, syms, st.globals)
      && st.pc == t.pc == e.pc && st.ctl == t.ctl == e.ctl
      && Selects(p.syms, cond, p.from.tc, p.from.ec, syms, cells, 0, |cells|)
    ensures RunsTo(step, guards, p, p.(from := At(st, cells), syms := syms))
  {
    var q := p.(from := At(st, cells), syms := syms);
    forall inp
      ensures Conc(p, inp) == Conc(q, inp)
      ensures Follows(step, Conc(p, inp), AllBind(q.reqs, |p.reqs|, Valuation(q.syms, inp)), StraysIn(q.log, inp),
        Conc(q, inp))
    {
      var (cond, t, e) := (p.from.cond, p.from.t, p.from.e);
      MergedVals(p.syms, cond, t.stack, e.stack, syms, st.stack, inp);
      MergedVals(p.syms, cond, t.locals, e.locals, syms, st.locals, inp);
      MergedVals(p.syms, cond, t.globals, e.globals, syms, st.globals, inp);
      MergedCells(p.syms, cond, p.from.tc, p.from.ec, syms, cells, inp);
      ReachesSelf(step, Conc(p, inp));
    }
  }

  // ----- pieces of the exploration -----

  /** Where a run diverged, it does with more symbols, requirements and accesses too. */
  lemma DivergesStable(step: Stepper, guards: seq<Lit>, p: View, q: View, log: seq<Access>)
    requires OkView(p) && OkGuards(guards, p.syms) && p.syms <= q.syms && p.reqs <= q.reqs && q.from == p.from
    requires Diverges(step, guards, p, log)
    ensures forall more: seq<Access> :: log <= more ==> Diverges(step, guards, q, more)
  {
    hide OnPath, StraysIn, Panics, Conc;
    forall more: seq<Access>, inp | log <= more && OnPath(guards, q.reqs, q.syms, inp)
      ensures Panics(step, Conc(q, inp)) || StraysIn(more, inp)
    {
      OnPathBack(guards, p, q, inp);
      ConcStable(p, q, inp);
      if StraysIn(log, inp) {
        StraysMore(log, more, inp);
      }
    }
  }

  /** More symbols and accesses, and nothing else. */
  lemma Grows(step: Stepper, guards: seq<Lit>, p: View, q: View)
    requires OkView(p) && OkGuards(guards, p.syms) && p.syms <= q.syms && OkSyms(q.syms)
    requires q == p.(syms := q.syms, log := q.log) && p.log <= q.log
    ensures Advances(step, guards, Ok, p, q)
  {
    OkOriginStable(p.from, p.syms, q.syms);
    OkReqsStable(p.reqs, guards, p.syms, q.syms);
    forall inp
      ensures Reaches(step, Conc(p, inp), Conc(q, inp))
    {
      ConcStable(p, q, inp);
      ReachesSelf(step, Conc(p, inp));
    }
  }

  /** The pair after arm `value` ran from `p` and ended, with status `r`, in `a`. */
  ghost function Progress(p: View, value: bool, r: Status, a: View): View
    requires p.from.Either? && a.from.At?
  {
    a.(from := if r.Ok? then WithArm(p, value, a.from) else p.from)
  }

  lemma ArmProgress(step: Stepper, guards: seq<Lit>, p: View, value: bool, r: Status, a: View)
    requires OkView(p) && OkGuards(guards, p.syms) && p.from.Either? && a.from.At?
    requires Advances(step, guards + [Lit(p.from.cond, value)], r, Arm(p, value), a)
    ensures Under(guards, p.reqs, a.reqs) && p.syms <= a.syms
    ensures !r.Failed? ==> Advances(step, guards, Ok, p, Progress(p, value, r, a))
    ensures r.Diverged? ==>
      Diverges(step, guards + [Lit(p.from.cond, value)], Arm(Progress(p, value, r, a), value), a.log)
  {
    UnderFewer(guards, Lit(p.from.cond, value), p.reqs, a.reqs);
    OkReqsStable(p.reqs, guards, p.syms, a.syms);
    if r.Ok? {
      ArmRuns(step, guards, p, value, a);
    } else if r.Diverged? {
      ArmGivesUp(step, guards, p, value, a);
    }
  }

  lemma AdvancesOk(step: Stepper, guards: seq<Lit>, r: Status, p: View, q: View)
    requires Advances(step, guards, r, p, q)
    ensures OkView(q) && OkGuards(guards, q.syms) && p.syms <= q.syms && Under(guards, p.reqs, q.reqs)
    ensures !r.Failed? ==> p.log <= q.log
  {
  }

  /** What is left of a piece of execution that is given up. */
  lemma GivesUp(step: Stepper, guards: seq<Lit>, r: Status, p: View, q: View)
    requires Advances(step, guards, r, p, q)
    ensures forall z: View :: z.syms == q.syms && z.reqs == q.reqs && OkView(z) ==> Advances(step, guards, Failed, p, z)
  {
  }

  /** The run from `p` panics or strays, wherever the machine's own state now is. */
  lemma DivergedAt(step: Stepper, guards: seq<Lit>, p: View, q: View)
    requires Diverges(step, guards, p, q.log) && OkView(q) && OkGuards(guards, q.syms)
    requires p.syms <= q.syms && Under(guards, p.reqs, q.reqs) && p.log <= q.log
    ensures Advances(step, guards, Diverged, p, q)
  {
  }

  /** An arm that looking ahead from `p` saw panic still does at `q`, which has grown. */
  lemma StillDead(step: Stepper, guards: seq<Lit>, p: View, value: bool, log: seq<Access>, q: View)
    requires OkView(p) && OkGuards(guards, p.syms) && p.from.Either? && q.from.Either?
    requires p.syms <= q.syms && p.reqs <= q.reqs && log <= q.log
    requires q.from.cond == p.from.cond && Arm(q, value).from == Arm(p, value).from
    requires Diverges(step, guards + [Lit(p.from.cond, value)], Arm(p, value), log)
    ensures Diverges(step, guards + [Lit(q.from.cond, value)], Arm(q, value), q.log)
  {
    MoreGuards(guards, p, value);
    DivergesStable(step, guards + [Lit(p.from.cond, value)], Arm(p, value), Arm(q, value), log);
  }

  /** The merged state and memory, over the symbols both merges made. */
  lemma MergedView(step: Stepper, guards: seq<Lit>, p: View, st: State<V>, syms1: seq<Sym>, cells: seq<Cell>,
                   syms2: seq<Sym>)
    requires OkView(p) && p.from.Either? && OkGuards(guards, p.syms)
    requires p.syms <= syms1 && syms1 <= syms2 && OkSyms(syms2) && OkState(st, syms1) && OkCells(cells, |syms2|)
    requires var (cond, t, e) := (p.from.cond, p.from.t, p.from.e);
      && SelectsVals(p.syms, cond, t.stack, e.stack, syms1, st.stack)
      && SelectsVals(p.syms, cond, t.locals, e.locals, syms1, st.locals)
      && SelectsVals(p.syms, cond, t.globals, e.globals, syms1, st.globals)
      && st.pc == t.pc == e.pc && st.ctl == t.ctl == e.ctl
      && Selects(syms1, cond, p.from.tc, p.from.ec, syms2, cells, 0, |cells|)
    ensures Advances(step, guards, Ok, p, p.(from := At(st, cells), syms := syms2))
  {
    var (cond, t, e) := (p.from.cond, p.from.t, p.from.e);
    SelectsValsWider(p.syms, p.syms, cond, t.stack, e.stack, syms1, syms2, st.stack);
    SelectsValsWider(p.syms, p.syms, cond, t.locals, e.locals, syms1, syms2, st.locals);
    SelectsValsWider(p.syms, p.syms, cond, t.globals, e.globals, syms1, syms2, st.globals);
    SelectsWider(p.syms, syms1, cond, p.from.tc, p.from.ec, syms2, cells);
    OkStateStable(st, syms1, syms2);
    OkReqsStable(p.reqs, guards, p.syms, syms2);
    Merges(step, guards, p, st, cells, syms2);
  }
}
