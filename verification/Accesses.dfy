/**
 * The accesses the machine logs. Each is one the program makes: every input on its path comes to it. An input that
 * strays at one fails a requirement, or is owed to an arm whose branch is still to be required away.
 */
module Accesses {
  import opened SymValues
  import opened Lowering
  import opened Wasm
  import opened Simulation
  import opened Instructions
  import P = Pointers

  /** What the entry says of its instruction is so. */
  ghost predicate IsAccess(code: seq<Op>, e: Access) {
    && e.st.ctl != [] && e.st.pc < |code|
    && match code[e.st.pc]
       case Load(w, off) =>
         |e.st.stack| >= 1 && e.a == e.st.Top() && e.off == off && e.size == w.Size() && !e.store
       case Store(w, off) =>
         |e.st.stack| >= 2 && e.a == e.st.stack[|e.st.stack| - 2] && e.off == off && e.size == w.Size() && e.store
       case _ => false
  }

  /** The concrete state at the access. */
  ghost function ConcAccess(e: Access, inp: Inputs): Config {
    ConcAt(Valuation(e.syms, inp), e.st, e.cells)
  }

  ghost predicate OkAccess(code: seq<Op>, start: Inputs -> Config, e: Access) {
    && IsAccess(code, e) && OkSyms(e.syms) && Narrow(e.syms, e.a) && OkGuards(e.guards, e.syms)
      && OkReqs(e.reqs, e.syms)
    && forall inp :: OnPath(e.guards, e.reqs, e.syms, inp) ==> Reaches(Steps(code), start(inp), ConcAccess(e, inp))
  }

  ghost predicate OkLog(code: seq<Op>, start: Inputs -> Config, log: seq<Access>, syms: seq<Sym>, reqs: seq<Req>) {
    forall k :: 0 <= k < |log| ==> OkAccess(code, start, log[k]) && log[k].syms <= syms && log[k].reqs <= reqs
  }

  /** An input that strays at a logged access fails a requirement, or is owed. */
  ghost predicate Owes(log: seq<Access>, owed: iset<Inputs>, syms: seq<Sym>, reqs: seq<Req>) {
    forall k, inp :: 0 <= k < |log| && StraysAt(log[k], inp) ==> !AllBind(reqs, 0, Valuation(syms, inp)) || inp in owed
  }

  ghost predicate Logged(code: seq<Op>, start: Inputs -> Config, log: seq<Access>, owed: iset<Inputs>, syms: seq<Sym>,
                         reqs: seq<Req>) {
    OkLog(code, start, log, syms, reqs) && Owes(log, owed, syms, reqs)
  }

  /** The inputs newly owed take every guard. */
  ghost predicate OwedUnder(guards: seq<Lit>, syms: seq<Sym>, owed0: iset<Inputs>, owed1: iset<Inputs>) {
    owed0 <= owed1 && forall inp :: inp in owed1 && inp !in owed0 ==> Taken(guards, Valuation(syms, inp))
  }

  lemma NothingOwed(guards: seq<Lit>, syms: seq<Sym>, owed: iset<Inputs>)
    ensures OwedUnder(guards, syms, owed, owed)
  {
  }

  lemma OwedStable(guards: seq<Lit>, syms: seq<Sym>, more: seq<Sym>, owed0: iset<Inputs>, owed1: iset<Inputs>)
    requires OkGuards(guards, syms) && syms <= more && OwedUnder(guards, syms, owed0, owed1)
    ensures OwedUnder(guards, more, owed0, owed1)
  {
    forall inp | inp in owed1 && inp !in owed0
      ensures Taken(guards, Valuation(more, inp))
    {
      TakenStable(guards, syms, more, inp);
    }
  }

  /** What takes more guards takes fewer, and what is owed in steps is owed. */
  lemma OwedFewer(guards: seq<Lit>, lit: Lit, syms: seq<Sym>, owed0: iset<Inputs>, owed1: iset<Inputs>,
                  owed2: iset<Inputs>)
    requires OwedUnder(guards, syms, owed0, owed1) && OwedUnder(guards + [lit], syms, owed1, owed2)
    ensures OwedUnder(guards, syms, owed0, owed2)
  {
    forall inp | inp in owed2 && inp !in owed0
      ensures Taken(guards, Valuation(syms, inp))
    {
      var (more, vals) := (guards + [lit], Valuation(syms, inp));
      if Taken(more, vals) {
        assert forall i :: 0 <= i < |guards| ==> more[i] == guards[i];
      }
    }
  }

  lemma LoggedMore(code: seq<Op>, start: Inputs -> Config, log: seq<Access>, owed: iset<Inputs>, syms: seq<Sym>,
                   reqs: seq<Req>, more: seq<Sym>, moreReqs: seq<Req>)
    requires Logged(code, start, log, owed, syms, reqs) && OkReqs(reqs, syms) && syms <= more && reqs <= moreReqs
    ensures Logged(code, start, log, owed, more, moreReqs)
  {
    hide OkAccess, StraysAt;
    forall k, inp | 0 <= k < |log| && StraysAt(log[k], inp)
      ensures !AllBind(moreReqs, 0, Valuation(more, inp)) || inp in owed
    {
      AllBindStable(reqs, 0, syms, more, inp);
      AllBindSplit([], reqs, moreReqs, Valuation(more, inp));
    }
  }

  /** Requiring that the arm is not taken pays for the inputs owed in it. */
  lemma LoggedPruned(code: seq<Op>, start: Inputs -> Config, log: seq<Access>, owed0: iset<Inputs>, owed1: iset<Inputs>,
                     syms: seq<Sym>, reqs: seq<Req>, guards: seq<Lit>, lit: Lit)
    requires Logged(code, start, log, owed1, syms, reqs) && OwedUnder(guards + [lit], syms, owed0, owed1)
    ensures Logged(code, start, log, owed0, syms, reqs + [Req(guards, V(0, lit.cond), !lit.value)])
  {
    hide OkAccess, StraysAt;
    var more := reqs + [Req(guards, V(0, lit.cond), !lit.value)];
    forall k, inp | 0 <= k < |log| && StraysAt(log[k], inp)
      ensures !AllBind(more, 0, Valuation(syms, inp)) || inp in owed0
    {
      var vals := Valuation(syms, inp);
      AllBindSplit([], reqs, more, vals);
      if inp in owed1 && inp !in owed0 {
        var all := guards + [lit];
        assert Taken(all, vals) && all[|guards|] == lit;
        assert forall i :: 0 <= i < |guards| ==> all[i] == guards[i];
        assert more[|reqs|] == Req(guards, V(0, lit.cond), !lit.value);
        assert !Binds(more[|reqs|], vals);
      }
    }
  }

  /** One more access, at which every input that strays fails a requirement or is owed. */
  lemma LoggedAccess(code: seq<Op>, start: Inputs -> Config, log: seq<Access>, owed: iset<Inputs>, e: Access,
                     syms: seq<Sym>, reqs: seq<Req>, more: iset<Inputs>)
    requires Logged(code, start, log, owed, e.syms, e.reqs) && OkAccess(code, start, e)
    requires e.syms <= syms && e.reqs <= reqs && owed <= more
    requires forall inp :: StraysAt(e, inp) ==> !AllBind(reqs, |e.reqs|, Valuation(syms, inp)) || inp in more
    ensures Logged(code, start, log + [e], more, syms, reqs)
  {
    hide StraysAt;
    LoggedMore(code, start, log, owed, e.syms, e.reqs, syms, reqs);
    hide OkAccess;
    forall k, inp | 0 <= k < |log + [e]| && StraysAt((log + [e])[k], inp)
      ensures !AllBind(reqs, 0, Valuation(syms, inp)) || inp in more
    {
      AllBindSplit([], e.reqs, reqs, Valuation(syms, inp));
    }
  }

  /** The inputs that stray at the access. */
  ghost function Strayed(e: Access): iset<Inputs> {
    iset inp | StraysAt(e, inp)
  }

  lemma StrayedUnder(e: Access, syms: seq<Sym>, owed: iset<Inputs>)
    requires OkGuards(e.guards, e.syms) && e.syms <= syms
    ensures OwedUnder(e.guards, syms, owed, owed + Strayed(e))
  {
    forall inp | StraysAt(e, inp)
      ensures Taken(e.guards, Valuation(syms, inp))
    {
      TakenStable(e.guards, e.syms, syms, inp);
    }
  }

  // ----- the accesses of loads and stores -----

  lemma LoadIsAccess(code: seq<Op>, start: Inputs -> Config, guards: seq<Lit>, p: View, st: State<V>, w: Width,
                     off: nat)
    requires Ready(code, guards, p, st, Load(w, off)) && Found(Steps(code), start, guards, p)
    ensures OkAccess(code, start, LoadOf(guards, p, w, off))
  {
    hide OnPath, Reaches;
  }

  lemma StoreIsAccess(code: seq<Op>, start: Inputs -> Config, guards: seq<Lit>, p: View, st: State<V>, w: Width,
                      off: nat)
    requires Ready(code, guards, p, st, Store(w, off)) && Found(Steps(code), start, guards, p)
    ensures OkAccess(code, start, StoreOf(guards, p, w, off))
  {
    hide OnPath, Reaches;
  }

  /** An input that strays at an accepted load fails what the load requires. */
  lemma LoadPays(guards: seq<Lit>, p: View, st: State<V>, w: Width, off: nat, syms: seq<Sym>, reqs: seq<Req>)
    requires OkView(p) && p.from.At? && p.from.st == st && |st.stack| >= 1 && OkGuards(guards, p.syms) && p.syms <= syms
    requires P.LeavesBind(guards, p.syms, st.Top(), off, w.Size(), |p.from.cells|, p.reqs, syms, reqs)
    ensures forall inp :: StraysAt(LoadOf(guards, p, w, off), inp) ==> !AllBind(reqs, |p.reqs|, Valuation(syms, inp))
  {
    hide P.LeavesInBounds, P.Held;
    forall inp | StraysAt(LoadOf(guards, p, w, off), inp)
      ensures !AllBind(reqs, |p.reqs|, Valuation(syms, inp))
    {
      TakenStable(guards, p.syms, syms, inp);
    }
  }

  /** No input strays at an accepted store. */
  lemma StorePays(guards: seq<Lit>, p: View, st: State<V>, w: Width, off: nat, forms: P.Forms)
    requires OkView(p) && p.from.At? && p.from.st == st && |st.stack| >= 2
    requires var a := st.stack[|st.stack| - 2];
      P.ConcreteSelect(p.syms, a) ==> P.AllInBounds(p.syms, forms, a, off, w.Size(), |p.from.cells|)
    ensures forall inp :: !StraysAt(StoreOf(guards, p, w, off), inp)
  {
    hide P.Held;
    var a := st.stack[|st.stack| - 2];
    forall inp
      ensures !StraysAt(StoreOf(guards, p, w, off), inp)
    {
      if P.ConcreteSelect(p.syms, a) {
        P.ConstsNeverStray(p.syms, forms, a, off, w.Size(), |p.from.cells|, inp);
      }
    }
  }

  /** After an accepted load. */
  lemma LoadLogged(code: seq<Op>, start: Inputs -> Config, guards: seq<Lit>, p: View, st: State<V>, w: Width, off: nat,
                   owed: iset<Inputs>, syms: seq<Sym>, reqs: seq<Req>)
    requires Ready(code, guards, p, st, Load(w, off)) && Found(Steps(code), start, guards, p)
    requires Logged(code, start, p.log, owed, p.syms, p.reqs) && p.syms <= syms && p.reqs <= reqs
    requires P.LeavesBind(guards, p.syms, st.Top(), off, w.Size(), |p.from.cells|, p.reqs, syms, reqs)
    ensures Logged(code, start, p.log + [LoadOf(guards, p, w, off)], owed, syms, reqs)
  {
    hide Logged, Found, OkAccess, StraysAt, P.LeavesBind;
    LoadIsAccess(code, start, guards, p, st, w, off);
    LoadPays(guards, p, st, w, off, syms, reqs);
    LoggedAccess(code, start, p.log, owed, LoadOf(guards, p, w, off), syms, reqs, owed);
  }

  /** After an accepted store. */
  lemma StoreLogged(code: seq<Op>, start: Inputs -> Config, guards: seq<Lit>, p: View, st: State<V>, w: Width, off: nat,
                    owed: iset<Inputs>, syms: seq<Sym>, reqs: seq<Req>, forms: P.Forms)
    requires Ready(code, guards, p, st, Store(w, off)) && Found(Steps(code), start, guards, p)
    requires Logged(code, start, p.log, owed, p.syms, p.reqs) && p.syms <= syms && p.reqs <= reqs
    requires var a := st.stack[|st.stack| - 2];
      P.ConcreteSelect(p.syms, a) ==> P.AllInBounds(p.syms, forms, a, off, w.Size(), |p.from.cells|)
    ensures Logged(code, start, p.log + [StoreOf(guards, p, w, off)], owed, syms, reqs)
  {
    hide Logged, Found, OkAccess, StraysAt, P.AllInBounds, P.ConcreteSelect;
    StoreIsAccess(code, start, guards, p, st, w, off);
    StorePays(guards, p, st, w, off, forms);
    LoggedAccess(code, start, p.log, owed, StoreOf(guards, p, w, off), syms, reqs, owed);
  }

  /** After a refused access: what strays there is owed. */
  lemma RefusedLogged(code: seq<Op>, start: Inputs -> Config, log: seq<Access>, owed: iset<Inputs>, e: Access,
                      syms: seq<Sym>, reqs: seq<Req>)
    requires OkAccess(code, start, e) && Logged(code, start, log, owed, e.syms, e.reqs) && e.syms <= syms
      && e.reqs <= reqs
    ensures Logged(code, start, log + [e], owed + Strayed(e), syms, reqs)
    ensures OwedUnder(e.guards, syms, owed, owed + Strayed(e))
  {
    hide Logged, StraysAt;
    StrayedUnder(e, syms, owed);
    hide OkAccess;
    LoggedAccess(code, start, log, owed, e, syms, reqs, owed + Strayed(e));
  }

  // ----- guards of a look-ahead -----

  lemma TakenFewer(guards: seq<Lit>, looking: seq<Lit>, vals: seq<nat>)
    requires Taken(guards + looking, vals)
    ensures Taken(guards, vals)
  {
    assert forall i :: 0 <= i < |guards| ==> (guards + looking)[i] == guards[i];
  }

  lemma UnderPath(guards: seq<Lit>, looking: seq<Lit>, reqs0: seq<Req>, reqs1: seq<Req>)
    requires Under(guards, reqs0, reqs1) && (looking == [] || reqs1 == reqs0)
    ensures Under(guards + looking, reqs0, reqs1)
  {
    if looking == [] {
      assert guards + looking == guards;
    }
  }

  lemma DivReqsPath(guards: seq<Lit>, looking: seq<Lit>, syms0: seq<Sym>, o: Bin, b: V, reqs0: seq<Req>, syms: seq<Sym>,
                    reqs: seq<Req>)
    requires DivReqs(guards, syms0, o, b, reqs0, syms, reqs)
    ensures DivReqs(guards + looking, syms0, o, b, reqs0, syms, reqs)
  {
    forall inp | Taken(guards + looking, Valuation(syms, inp))
      ensures Taken(guards, Valuation(syms, inp))
    {
      TakenFewer(guards, looking, Valuation(syms, inp));
    }
  }

  lemma WorthPath(guards: seq<Lit>, looking: seq<Lit>, syms0: seq<Sym>, d: Def, syms: seq<Sym>, v: V)
    requires WorthUnder(guards, syms0, d, syms, v)
    ensures WorthUnder(guards + looking, syms0, d, syms, v)
  {
    hide Valuation, DefVal, OkSyms, Narrow;
    forall inp | Taken(guards + looking, Valuation(syms0, inp))
      ensures Taken(guards, Valuation(syms0, inp))
    {
      TakenFewer(guards, looking, Valuation(syms0, inp));
    }
  }

  lemma LeavesBindPath(guards: seq<Lit>, looking: seq<Lit>, syms0: seq<Sym>, a: V, off: nat, size: nat, n: nat,
                       reqs0: seq<Req>, syms: seq<Sym>, reqs: seq<Req>)
    requires P.LeavesBind(guards, syms0, a, off, size, n, reqs0, syms, reqs)
    ensures P.LeavesBind(guards + looking, syms0, a, off, size, n, reqs0, syms, reqs)
  {
    hide P.LeavesInBounds, AllBind;
    forall inp | Taken(guards + looking, Valuation(syms, inp))
      ensures Taken(guards, Valuation(syms, inp))
    {
      TakenFewer(guards, looking, Valuation(syms, inp));
    }
  }

  lemma InBoundsPath(guards: seq<Lit>, looking: seq<Lit>, syms0: seq<Sym>, a: V, off: nat, size: nat, n: nat,
                     reqs0: seq<Req>, syms: seq<Sym>, reqs: seq<Req>)
    requires P.InBoundsOnly(guards, syms0, a, off, size, n, reqs0, syms, reqs)
    ensures P.InBoundsOnly(guards + looking, syms0, a, off, size, n, reqs0, syms, reqs)
  {
    hide P.Held, AllBind;
    forall inp | Taken(guards + looking, Valuation(syms, inp))
      ensures Taken(guards, Valuation(syms, inp))
    {
      TakenFewer(guards, looking, Valuation(syms, inp));
    }
  }

  // ----- one load, one store -----

  /** What the machine holds at `q`, after one instruction at `p` that ended with status `r`. */
  ghost predicate Carries(code: seq<Op>, start: Inputs -> Config, guards: seq<Lit>, p: View, r: Status, q: View,
                          owed: iset<Inputs>, owing: iset<Inputs>) {
    && Advances(Steps(code), guards, r, p, q)
    && Logged(code, start, q.log, owing, q.syms, q.reqs)
    && (r.Ok? ==> owing == owed) && (r.Diverged? ==> OwedUnder(guards, q.syms, owed, owing))
  }

  /** The machine is at `p`, and every input on the path comes there. */
  ghost predicate Stands(code: seq<Op>, start: Inputs -> Config, guards: seq<Lit>, p: View, st: State<V>, op: Op,
                         owed: iset<Inputs>) {
    Ready(code, guards, p, st, op) && Found(Steps(code), start, guards, p)
      && Logged(code, start, p.log, owed, p.syms, p.reqs)
  }

  lemma LoadAccepted(code: seq<Op>, start: Inputs -> Config, guards: seq<Lit>, looking: seq<Lit>, p: View, st: State<V>,
                     w: Width, off: nat, owed: iset<Inputs>, v: V, q: View)
    requires Stands(code, start, guards + looking, p, st, Load(w, off), owed)
    requires p.syms <= q.syms && OkSyms(q.syms) && Narrow(q.syms, v) && OkGuards(guards + looking, q.syms)
      && OkReqs(q.reqs, q.syms)
    requires Under(guards + looking, p.reqs, q.reqs)
    requires q.from == At(st.Pop(1).Push(v), p.from.cells) && q.log == p.log + [LoadOf(guards + looking, p, w, off)]
    requires P.LoadsHeld(p.syms, p.from.cells, st.Top(), off, w.Size(), q.syms, v)
    requires P.LeavesBind(guards, p.syms, st.Top(), off, w.Size(), |p.from.cells|, p.reqs, q.syms, q.reqs)
    ensures Carries(code, start, guards + looking, p, Ok, q, owed, owed)
    ensures OkState(q.from.st, q.syms) && Keeps(st, q.from.st)
  {
    hide P.LoadsHeld, P.LeavesBind, Logged, Found, Advances, OkSyms, Narrow, OkGuards;
    var path := guards + looking;
    LeavesBindPath(guards, looking, p.syms, st.Top(), off, w.Size(), |p.from.cells|, p.reqs, q.syms, q.reqs);
    LoadLogged(code, start, path, p, st, w, off, owed, q.syms, q.reqs);
    PopPush(st, 1, v, p.syms, q.syms);
    LoadStep(code, path, p, st, w, off, q, v);
  }

  lemma LoadTurnedDown(code: seq<Op>, start: Inputs -> Config, path: seq<Lit>, p: View, st: State<V>, w: Width,
                       off: nat, owed: iset<Inputs>, q: View, forms: P.Forms)
    requires Stands(code, start, path, p, st, Load(w, off), owed) && OkView(q) && OkGuards(path, q.syms)
    requires p.syms <= q.syms && Under(path, p.reqs, q.reqs) && q.log == p.log + [LoadOf(path, p, w, off)]
    requires P.OkForms(p.syms, forms) && !P.LeavesHaveSlots(p.syms, forms, st.Top(), off, w.Size(), |p.from.cells|)
    ensures Carries(code, start, path, p, Diverged, q, owed, owed + Strayed(LoadOf(path, p, w, off)))
  {
    hide P.LeavesHaveSlots, P.LeavesInBounds, Logged, Found, Advances, OkGuards, OwedUnder, StraysAt, OkAccess,
      P.OkForms;
    forall inp
      ensures !P.LeavesInBounds(p.syms, st.Top(), off, w.Size(), |p.from.cells|, inp)
    {
      P.NoSlotNever(p.syms, forms, st.Top(), off, w.Size(), |p.from.cells|, inp);
    }
    LoadIsAccess(code, start, path, p, st, w, off);
    RefusedLogged(code, start, p.log, owed, LoadOf(path, p, w, off), q.syms, q.reqs);
    LoadRefused(code, path, p, st, w, off, q);
  }

  lemma StoreAccepted(code: seq<Op>, start: Inputs -> Config, guards: seq<Lit>, looking: seq<Lit>, p: View,
                      st: State<V>, w: Width, off: nat, owed: iset<Inputs>, q: View, forms: P.Forms)
    requires Stands(code, start, guards + looking, p, st, Store(w, off), owed)
    requires p.syms <= q.syms && OkSyms(q.syms) && OkGuards(guards + looking, q.syms) && OkReqs(q.reqs, q.syms)
    requires Under(guards + looking, p.reqs, q.reqs) && q.from.At? && OkCells(q.from.cells, |q.syms|)
    requires q.from.st == st.Pop(2).(pc := st.pc + 1) && q.log == p.log + [StoreOf(guards + looking, p, w, off)]
    requires var a := st.stack[|st.stack| - 2];
      && P.StoresHeld(p.syms, p.from.cells, a, off, w.Size(), st.Top(), q.syms, q.from.cells)
      && P.InBoundsOnly(guards, p.syms, a, off, w.Size(), |p.from.cells|, p.reqs, q.syms, q.reqs)
      && (P.ConcreteSelect(p.syms, a) ==> P.AllInBounds(p.syms, forms, a, off, w.Size(), |p.from.cells|))
    ensures Carries(code, start, guards + looking, p, Ok, q, owed, owed)
    ensures OkState(q.from.st, q.syms) && Keeps(st, q.from.st)
  {
    hide P.StoresHeld, P.InBoundsOnly, Logged, Found, Advances, OkSyms, OkGuards, P.AllInBounds, P.ConcreteSelect;
    var (path, a) := (guards + looking, st.stack[|st.stack| - 2]);
    InBoundsPath(guards, looking, p.syms, a, off, w.Size(), |p.from.cells|, p.reqs, q.syms, q.reqs);
    StoreLogged(code, start, path, p, st, w, off, owed, q.syms, q.reqs, forms);
    OkStateStable(st, p.syms, q.syms);
    StoreStep(code, path, p, st, w, off, q);
  }

  lemma StoreTurnedDown(code: seq<Op>, start: Inputs -> Config, path: seq<Lit>, p: View, st: State<V>, w: Width,
                        off: nat, owed: iset<Inputs>, q: View, forms: P.Forms)
    requires Stands(code, start, path, p, st, Store(w, off), owed) && OkView(q) && OkGuards(path, q.syms)
    requires p.syms <= q.syms && Under(path, p.reqs, q.reqs) && q.log == p.log + [StoreOf(path, p, w, off)]
    requires var a := st.stack[|st.stack| - 2];
      if P.ConcreteSelect(p.syms, a) then !P.AllInBounds(p.syms, forms, a, off, w.Size(), |p.from.cells|)
      else forall inp :: P.Held(p.syms, a, off, inp) + w.Size() > |p.from.cells|
    ensures Carries(code, start, path, p, Diverged, q, owed, owed + Strayed(StoreOf(path, p, w, off)))
  {
    hide P.AllInBounds, Logged, Found, Advances, OkGuards, OwedUnder, StraysAt, OkAccess, P.ConcreteSelect, P.Held,
      P.StoreFits;
    var a := st.stack[|st.stack| - 2];
    P.NeverFits(p.syms, forms, a, off, w.Size(), |p.from.cells|);
    StoreIsAccess(code, start, path, p, st, w, off);
    RefusedLogged(code, start, p.log, owed, StoreOf(path, p, w, off), q.syms, q.reqs);
    StoreRefused(code, path, p, st, w, off, q, a);
  }
}
