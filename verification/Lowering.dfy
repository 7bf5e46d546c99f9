/**
 * Operations on symbolic i32 values, and the requirements they raise. An operation the host lowers to
 * rows becomes a wire defined as that operation; selects are pushed through, and boolean algebra and
 * identities are folded, before a wire is made.
 */
module Lowering {
  import opened Words
  import opened SymValues
  import opened SymMemory

  // ----- guards and requirements -----

  /** Where every guard is taken, `v` must be nonzero (or zero). */
  datatype Req = Req(guards: seq<Lit>, v: V, nonzero: bool)

  ghost predicate Binds(r: Req, vals: seq<nat>) {
    Taken(r.guards, vals) ==> (Val(vals, r.v) != 0) == r.nonzero
  }

  /** The requirements from the `from`-th on all hold. */
  ghost predicate AllBind(reqs: seq<Req>, from: nat, vals: seq<nat>) {
    forall i :: from <= i < |reqs| ==> Binds(reqs[i], vals)
  }

  ghost predicate OkGuards(guards: seq<Lit>, syms: seq<Sym>) {
    forall i :: 0 <= i < |guards| ==> IsCond(syms, guards[i].cond)
  }

  ghost predicate OkReq(r: Req, syms: seq<Sym>) {
    OkGuards(r.guards, syms) && OkV(r.v, |syms|)
  }

  ghost predicate OkReqs(reqs: seq<Req>, syms: seq<Sym>) {
    forall i :: 0 <= i < |reqs| ==> OkReq(reqs[i], syms)
  }

  /** Only requirements under `guards` were added. */
  ghost predicate Under(guards: seq<Lit>, reqs0: seq<Req>, reqs1: seq<Req>) {
    reqs0 <= reqs1 && forall i :: |reqs0| <= i < |reqs1| ==> guards <= reqs1[i].guards
  }

  lemma TakenStable(guards: seq<Lit>, syms: seq<Sym>, more: seq<Sym>, inp: Inputs)
    requires OkGuards(guards, syms) && syms <= more
    ensures Taken(guards, Valuation(more, inp)) <==> Taken(guards, Valuation(syms, inp))
  {
    ValuationPrefix(syms, more, inp);
    forall i | 0 <= i < |guards|
      ensures Val(Valuation(more, inp), V(0, guards[i].cond)) == Val(Valuation(syms, inp), V(0, guards[i].cond))
    {
    }
  }

  lemma AllBindStable(reqs: seq<Req>, from: nat, syms: seq<Sym>, more: seq<Sym>, inp: Inputs)
    requires OkReqs(reqs, syms) && syms <= more
    ensures AllBind(reqs, from, Valuation(more, inp)) <==> AllBind(reqs, from, Valuation(syms, inp))
  {
    ValuationPrefix(syms, more, inp);
    forall i | from <= i < |reqs|
      ensures Binds(reqs[i], Valuation(more, inp)) <==> Binds(reqs[i], Valuation(syms, inp))
    {
      assert OkReq(reqs[i], syms);
      TakenStable(reqs[i].guards, syms, more, inp);
    }
  }

  /** Every division's divisor is a nonzero constant, or required not to be 0 in the arms the division is made in. */
  ghost predicate Asked(divs: set<nat>, syms: seq<Sym>, reqs: seq<Req>) {
    forall i :: i in divs ==> i < |syms| && IsDivision(syms[i]) && DivisorAsked(syms[i].def, reqs)
  }

  predicate DivisorAsked(def: Def, reqs: seq<Req>)
    requires def.DivOf?
  {
    if def.b.IsSym() then Req(def.guards, def.b, true) in reqs else def.b.b != 0
  }

  lemma AskedStays(divs: set<nat>, syms: seq<Sym>, reqs: seq<Req>, syms1: seq<Sym>, reqs1: seq<Req>)
    requires Asked(divs, syms, reqs) && syms <= syms1 && reqs <= reqs1
    ensures Asked(divs, syms1, reqs1)
  {
    assert forall r :: r in reqs ==> r in reqs1;
  }

  lemma AskedMore(divs: set<nat>, syms: seq<Sym>, def: Def, reqs: seq<Req>)
    requires Asked(divs, syms, reqs) && def.DivOf? && DivisorAsked(def, reqs)
    ensures Asked(divs + {|syms|}, syms + [Wire(32, def)], reqs)
  {
  }

  lemma AllBindSplit(reqs0: seq<Req>, reqs1: seq<Req>, reqs2: seq<Req>, vals: seq<nat>)
    requires reqs0 <= reqs1 <= reqs2
    ensures AllBind(reqs2, |reqs0|, vals) <==> AllBind(reqs1, |reqs0|, vals) && AllBind(reqs2, |reqs1|, vals)
  {
    forall i | |reqs0| <= i < |reqs1|
      ensures reqs1[i] == reqs2[i]
    {
    }
    if AllBind(reqs2, |reqs0|, vals) {
      forall i | |reqs0| <= i < |reqs1| ensures Binds(reqs1[i], vals) { assert Binds(reqs2[i], vals); }
    }
    if AllBind(reqs1, |reqs0|, vals) && AllBind(reqs2, |reqs1|, vals) {
      forall i | |reqs0| <= i < |reqs2| ensures Binds(reqs2[i], vals) {
        if i < |reqs1| { assert Binds(reqs1[i], vals); }
      }
    }
  }

  lemma OkReqsStable(reqs: seq<Req>, guards: seq<Lit>, syms: seq<Sym>, more: seq<Sym>)
    requires syms <= more
    ensures OkReqs(reqs, syms) ==> OkReqs(reqs, more)
    ensures OkGuards(guards, syms) ==> OkGuards(guards, more)
    ensures forall divs :: Asked(divs, syms, reqs) ==> Asked(divs, more, reqs)
  {
    forall divs | Asked(divs, syms, reqs)
      ensures Asked(divs, more, reqs)
    {
      AskedStays(divs, syms, reqs, more, reqs);
    }
    forall c | IsCond(syms, c)
      ensures IsCond(more, c)
    {
    }
    if OkReqs(reqs, syms) {
      forall i | 0 <= i < |reqs|
        ensures OkReq(reqs[i], more)
      {
        assert OkReq(reqs[i], syms);
      }
    }
  }

  lemma UnderTrans(guards: seq<Lit>, reqs0: seq<Req>, reqs1: seq<Req>, reqs2: seq<Req>)
    requires Under(guards, reqs0, reqs1) && Under(guards, reqs1, reqs2)
    ensures Under(guards, reqs0, reqs2)
  {
    forall i | |reqs0| <= i < |reqs2|
      ensures guards <= reqs2[i].guards
    {
      if i < |reqs1| {
        assert reqs2[i] == reqs1[i];
      }
    }
  }

  // ----- what an operation's result is worth -----

  /** Over the grown table `syms1`, `v` is an i32 worth what `d` is over `syms0`. */
  ghost predicate Worth(syms0: seq<Sym>, d: Def, syms1: seq<Sym>, v: V) {
    && OkSyms(syms1) && syms0 <= syms1 && Narrow(syms1, v)
    && forall inp :: Val(Valuation(syms1, inp), v) == DefVal(d, Valuation(syms0, inp), inp)
  }

  /** As `Worth`, on the inputs that take the guards. */
  ghost predicate WorthUnder(guards: seq<Lit>, syms0: seq<Sym>, d: Def, syms1: seq<Sym>, v: V) {
    && OkSyms(syms1) && syms0 <= syms1 && Narrow(syms1, v)
    && forall inp :: Taken(guards, Valuation(syms0, inp)) ==>
      Val(Valuation(syms1, inp), v) == DefVal(d, Valuation(syms0, inp), inp)
  }

  lemma WorthAnywhere(guards: seq<Lit>, syms0: seq<Sym>, d: Def, syms1: seq<Sym>, v: V)
    requires Worth(syms0, d, syms1, v)
    ensures WorthUnder(guards, syms0, d, syms1, v)
  {
    hide OkSyms, Narrow, Valuation, DefVal;
  }

  /** Where its guards are taken, a division is the operation. */
  lemma WorthDivision(guards: seq<Lit>, syms0: seq<Sym>, o: Bin, a: V, b: V, syms1: seq<Sym>, v: V)
    requires Worth(syms0, DivOf(o, a, b, guards), syms1, v)
    ensures WorthUnder(guards, syms0, BinOf(o, a, b), syms1, v)
  {
    hide OkSyms, Narrow, Valuation, BinVal;
  }

  /** `d` with its left (or only), or right operand replaced by `x`. */
  function Plug(d: Def, left: bool, x: V): Def {
    match d
    case Input(k) => Input(k)
    case NotOf(_) => NotOf(x)
    case BinOf(o, a, b) => if left then BinOf(o, x, b) else BinOf(o, a, x)
    case DivOf(o, a, b, guards) => if left then DivOf(o, x, b, guards) else DivOf(o, a, x, guards)
    case CmpOf(c, a, b) => if left then CmpOf(c, x, b) else CmpOf(c, a, x)
    case BoolOf(o, a, b) => if left then BoolOf(o, x, b) else BoolOf(o, a, x)
  }

  function Operand(d: Def, left: bool): V {
    match d
    case Input(_) => C(0)
    case NotOf(a) => a
    case BinOf(_, a, b) => if left then a else b
    case DivOf(_, a, b, _) => if left then a else b
    case CmpOf(_, a, b) => if left then a else b
    case BoolOf(_, a, b) => if left then a else b
  }

  lemma PlugSame(d: Def, left: bool, x: V, vals: seq<nat>, inp: Inputs)
    requires Val(vals, x) == Val(vals, Operand(d, left))
    ensures DefVal(Plug(d, left, x), vals, inp) == DefVal(d, vals, inp)
  {
  }

  lemma PlugOk(d: Def, left: bool, x: V, n: nat)
    requires OkDef(d, n)
    ensures OkV(Operand(d, left), n)
    ensures OkV(x, n) ==> OkDef(Plug(d, left, x), n)
  {
    Pow256Mono(0, 8);
  }

  /** Applying an operation to both arms of a select operand applies it to the select. */
  lemma WorthSelect(syms0: seq<Sym>, d: Def, left: bool, syms1: seq<Sym>, t: V, syms2: seq<Sym>, e: V, syms3: seq<Sym>,
                    v: V)
    requires OkSyms(syms0) && OkDef(d, |syms0|)
    requires var s := Operand(d, left).s; 0 < s < |syms0| && syms0[s].Ite?
    requires Worth(syms0, Plug(d, left, syms0[Operand(d, left).s].t), syms1, t)
    requires Worth(syms1, Plug(d, left, syms0[Operand(d, left).s].e), syms2, e)
    requires IsSelect(syms2, syms0[Operand(d, left).s].cond, t, e, syms3, v)
    requires OkSyms(syms3) && syms2 <= syms3 && Narrow(syms3, v)
    ensures Worth(syms0, d, syms3, v)
  {
    forall inp
      ensures Val(Valuation(syms3, inp), v) == DefVal(d, Valuation(syms0, inp), inp)
    {
      WorthSelectAt(syms0, d, left, syms1, t, syms2, e, syms3, v, inp);
    }
  }

  lemma WorthSelectAt(syms0: seq<Sym>, d: Def, left: bool, syms1: seq<Sym>, t: V, syms2: seq<Sym>, e: V,
                      syms3: seq<Sym>, v: V, inp: Inputs)
    requires OkSyms(syms0) && OkDef(d, |syms0|) && syms0 <= syms1 <= syms2 && Narrow(syms1, t)
    requires var s := Operand(d, left).s; 0 < s < |syms0| && syms0[s].Ite?
    requires Val(Valuation(syms1, inp), t)
          == DefVal(Plug(d, left, syms0[Operand(d, left).s].t), Valuation(syms0, inp), inp)
    requires Val(Valuation(syms2, inp), e)
          == DefVal(Plug(d, left, syms0[Operand(d, left).s].e), Valuation(syms1, inp), inp)
    requires IsSelect(syms2, syms0[Operand(d, left).s].cond, t, e, syms3, v)
    ensures Val(Valuation(syms3, inp), v) == DefVal(d, Valuation(syms0, inp), inp)
  {
    var s := Operand(d, left).s;
    var Ite(cond, ta, ea) := syms0[s];
    NarrowOk(syms1, t);
    PlugOk(d, left, ea, |syms0|);
    var (v0, v1, v2) := (Valuation(syms0, inp), Valuation(syms1, inp), Valuation(syms2, inp));
    ValuationPrefix(syms0, syms1, inp);
    ValuationPrefix(syms1, syms2, inp);
    SymWorth(syms0, inp, s);
    assert v0[cond] == v2[cond];
    if v2[cond] != 0 {
      PlugSame(d, left, ta, v0, inp);
    } else {
      DefStable(Plug(d, left, ea), v0, v1, inp);
      PlugSame(d, left, ea, v0, inp);
    }
  }

  lemma WorthSelectUnder(guards: seq<Lit>, syms0: seq<Sym>, d: Def, left: bool, syms1: seq<Sym>, t: V, syms2: seq<Sym>,
                         e: V, syms3: seq<Sym>, v: V)
    requires OkSyms(syms0) && OkDef(d, |syms0|) && OkGuards(guards, syms0)
    requires var s := Operand(d, left).s; 0 < s < |syms0| && syms0[s].Ite?
    requires WorthUnder(guards, syms0, Plug(d, left, syms0[Operand(d, left).s].t), syms1, t)
    requires WorthUnder(guards, syms1, Plug(d, left, syms0[Operand(d, left).s].e), syms2, e)
    requires IsSelect(syms2, syms0[Operand(d, left).s].cond, t, e, syms3, v)
    requires OkSyms(syms3) && syms2 <= syms3 && Narrow(syms3, v)
    ensures WorthUnder(guards, syms0, d, syms3, v)
  {
    hide Valuation, DefVal, OkSyms, Narrow, IsSelect, OkGuards, OkDef, Taken;
    forall inp | Taken(guards, Valuation(syms0, inp))
      ensures Val(Valuation(syms3, inp), v) == DefVal(d, Valuation(syms0, inp), inp)
    {
      TakenStable(guards, syms0, syms1, inp);
      WorthSelectAt(syms0, d, left, syms1, t, syms2, e, syms3, v, inp);
    }
  }

  lemma OkSymsAppend(syms: seq<Sym>, x: Sym)
    requires OkSyms(syms) && OkSym(x, |syms|) && (x.Ite? ==> IsCond(syms, x.cond))
    ensures OkSyms(syms + [x])
  {
    var more := syms + [x];
    forall i | 1 <= i < |more| && more[i].Ite?
      ensures IsCond(more, more[i].cond)
    {
      if i < |syms| {
        assert IsCond(syms, syms[i].cond);
      }
    }
  }

  /** The register width of an operation's result. */
  function WireWidth(d: Def): nat { if d.BinOf? || d.DivOf? then 32 else 1 }

  lemma DefBound(d: Def, vals: seq<nat>, inp: Inputs)
    requires !d.Input?
    ensures DefVal(d, vals, inp) % Pow2(WireWidth(d)) == DefVal(d, vals, inp)
  {
    hide BinVal, CmpVal, Val, Taken;
    TwoTo32();
    assert Pow2(1) == 2;
    assert DefVal(d, vals, inp) < Pow2(WireWidth(d));
  }

  lemma WorthWire(syms: seq<Sym>, d: Def)
    requires OkSyms(syms) && OkDef(d, |syms|) && !d.Input?
    ensures OkSyms(syms + [Wire(WireWidth(d), d)]) && OkSym(Wire(WireWidth(d), d), |syms|)
    ensures Worth(syms, d, syms + [Wire(WireWidth(d), d)], V(0, |syms|))
  {
    var x := Wire(WireWidth(d), d);
    var more := syms + [x];
    OkSymsAppend(syms, x);
    assert more[..|more| - 1] == syms;
    forall inp
      ensures Valuation(more, inp)[|syms|] == DefVal(d, Valuation(syms, inp), inp)
    {
      DefBound(d, Valuation(syms, inp), inp);
    }
  }

  // ----- folding rules -----

  lemma {:induction false} BitOpZero(o: Bin, n: nat)
    ensures BitOp(o, 0, 0, n) == 0
  {
    if n > 0 {
      BitOpZero(o, n - 1);
    }
  }

  /** On `{0,1}` values a bitwise operation is the boolean one. */
  lemma BitwiseBool(o: Bin, a: nat, b: nat)
    requires (o.And? || o.Or? || o.Xor?) && a < 2 && b < 2
    ensures BinVal(o, a, b) == BoolVal(o, a, b)
  {
    BitOpBool(o, a, b, 32);
  }

  lemma BitOpBool(o: Bin, a: nat, b: nat, n: nat)
    requires (o.And? || o.Or? || o.Xor?) && a < 2 && b < 2 && n > 0
    ensures BitOp(o, a, b, n) == BoolVal(o, a, b)
  {
    BitOpZero(o, n - 1);
  }

  lemma {:induction false} BitOpIdentity(o: Bin, x: nat, n: nat)
    requires (o.Or? || o.Xor?) && x < Pow2(n)
    ensures BitOp(o, x, 0, n) == x
  {
    if n > 0 {
      BitOpIdentity(o, x / 2, n - 1);
    }
  }

  /** `y & (2^w - 1) == 2^w - 1`: `y` keeps all of a `w`-bit value's bits. */
  lemma {:induction false} AndMask(x: nat, y: nat, q: nat, w: nat, n: nat)
    requires w <= n && x < Pow2(w) && y == Pow2(w) * q + Pow2(w) - 1
    ensures BitOp(And, x, y, n) == x && BitOp(And, y, x, n) == x
  {
    if w == 0 {
      AndZero(y, n);
    } else {
      var p := Pow2(w - 1);
      assert y == 2 * (p * q) + 2 * p - 1;
      assert y / 2 == p * q + p - 1 && y % 2 == 1;
      AndMask(x / 2, y / 2, q, w - 1, n - 1);
    }
  }

  lemma {:induction false} AndZero(y: nat, n: nat)
    ensures BitOp(And, 0, y, n) == 0 && BitOp(And, y, 0, n) == 0
  {
    if n > 0 {
      AndZero(y / 2, n - 1);
    }
  }

  /** `x | 0`, `x ^ 0`, `x + 0`, `x - 0`, shifts by 0, `x * 1`. */
  predicate IsIdentity(o: Bin, b: nat) {
    match o
    case Or => b == 0
    case Xor => b == 0
    case Add => b == 0
    case Sub => b == 0
    case Shl => b == 0
    case ShrU => b == 0
    case Mul => b == 1
    case _ => false
  }

  lemma IdentityVal(o: Bin, x: nat, b: nat)
    requires IsIdentity(o, b) && x < U32
    ensures BinVal(o, x, b) == x && !Traps(o, b)
  {
    if o.Or? || o.Xor? {
      TwoTo32();
      BitOpIdentity(o, x, 32);
    }
  }

  /** `v` is a `{0,1}` value: a 1-bit wire, a concrete 0 or 1, or a select of such. */
  predicate BoolLike(syms: seq<Sym>, v: V)
    decreases v.s
  {
    if v.s == 0 then v.b <= 1
    else
      && v.s < |syms|
      && match syms[v.s]
         case Wire(width, _) => width == 1
         case Ite(_, t, e) => t.s < v.s && e.s < v.s && BoolLike(syms, t) && BoolLike(syms, e)
         case _ => false
  }

  lemma {:induction false} BoolLikeVal(syms: seq<Sym>, inp: Inputs, v: V)
    requires OkSyms(syms) && BoolLike(syms, v)
    ensures Val(Valuation(syms, inp), v) < 2
    decreases v.s
  {
    if v.IsSym() {
      SymWorth(syms, inp, v.s);
      match syms[v.s] {
        case Wire(_, _) =>
          SymBound(syms, inp, v.s);
          assert Pow2(1) == 2;
        case Ite(_, t, e) =>
          BoolLikeVal(syms, inp, t);
          BoolLikeVal(syms, inp, e);
        case _ =>
      }
    }
  }

  lemma {:induction false} BoolLikeStable(syms: seq<Sym>, more: seq<Sym>, v: V)
    requires syms <= more && BoolLike(syms, v)
    ensures BoolLike(more, v)
    decreases v.s
  {
    if v.IsSym() && syms[v.s].Ite? {
      assert more[v.s] == syms[v.s];
      BoolLikeStable(syms, more, syms[v.s].t);
      BoolLikeStable(syms, more, syms[v.s].e);
    }
  }

  lemma {:induction false} BoolLikeNarrow(syms: seq<Sym>, v: V)
    requires BoolLike(syms, v)
    ensures Narrow(syms, v)
    decreases v.s
  {
    if v.IsSym() && syms[v.s].Ite? {
      BoolLikeNarrow(syms, syms[v.s].t);
      BoolLikeNarrow(syms, syms[v.s].e);
    }
  }

  /** Under `guards`, the new requirements hold exactly when dividing by `b` does not trap. */
  ghost predicate DivReqs(guards: seq<Lit>, syms0: seq<Sym>, o: Bin, b: V, reqs0: seq<Req>, syms1: seq<Sym>,
                          reqs1: seq<Req>) {
    forall inp ::
      var vals := Valuation(syms1, inp);
      Taken(guards, vals) ==> (AllBind(reqs1, |reqs0|, vals) <==> !Traps(o, Val(Valuation(syms0, inp), b)))
  }

  ghost predicate AlwaysTraps(syms: seq<Sym>, o: Bin, b: V) {
    forall inp :: Traps(o, Val(Valuation(syms, inp), b))
  }

  lemma DivReqsNone(guards: seq<Lit>, syms0: seq<Sym>, o: Bin, b: V, reqs: seq<Req>, syms1: seq<Sym>)
    requires forall inp :: !Traps(o, Val(Valuation(syms0, inp), b))
    ensures DivReqs(guards, syms0, o, b, reqs, syms1, reqs)
  {
  }

  lemma DivReqsOne(guards: seq<Lit>, syms0: seq<Sym>, o: Bin, b: V, reqs: seq<Req>, syms1: seq<Sym>)
    requires (o.DivU? || o.RemU?) && OkV(b, |syms0|) && syms0 <= syms1
    ensures DivReqs(guards, syms0, o, b, reqs, syms1, reqs + [Req(guards, b, true)])
  {
    var more := reqs + [Req(guards, b, true)];
    forall inp
      ensures AllBind(more, |reqs|, Valuation(syms1, inp)) <==> Binds(more[|reqs|], Valuation(syms1, inp))
      ensures Val(Valuation(syms1, inp), b) == Val(Valuation(syms0, inp), b)
    {
      ValuationPrefix(syms0, syms1, inp);
    }
  }

  /** Both arms of a select dividend raise the one requirement of its divisor. */
  lemma DivReqsBoth(guards: seq<Lit>, syms0: seq<Sym>, o: Bin, b: V, reqs0: seq<Req>, syms1: seq<Sym>, reqs1: seq<Req>,
                    syms2: seq<Sym>, reqs2: seq<Req>, syms3: seq<Sym>)
    requires OkV(b, |syms0|) && syms0 <= syms1 <= syms2 <= syms3
    requires reqs0 <= reqs1 <= reqs2 && OkReqs(reqs1, syms1) && OkReqs(reqs2, syms2) && OkGuards(guards, syms0)
    requires DivReqs(guards, syms0, o, b, reqs0, syms1, reqs1)
    requires DivReqs(guards, syms1, o, b, reqs1, syms2, reqs2)
    ensures DivReqs(guards, syms0, o, b, reqs0, syms3, reqs2)
  {
    forall inp
      ensures var vals := Valuation(syms3, inp);
        Taken(guards, vals) ==> (AllBind(reqs2, |reqs0|, vals) <==> !Traps(o, Val(Valuation(syms0, inp), b)))
    {
      OkReqsStable(reqs1, guards, syms0, syms1);
      OkReqsStable(reqs1, guards, syms1, syms2);
      TakenStable(guards, syms1, syms3, inp);
      TakenStable(guards, syms2, syms3, inp);
      AllBindStable(reqs1, |reqs0|, syms1, syms3, inp);
      AllBindStable(reqs2, |reqs1|, syms2, syms3, inp);
      AllBindSplit(reqs0, reqs1, reqs2, Valuation(syms3, inp));
      ValuationPrefix(syms0, syms1, inp);
    }
  }

  /** A select of two nonzero constants: dividing by either arm is fine. */
  predicate NonzeroSelect(syms: seq<Sym>, b: V) {
    && b.IsSym() && b.s < |syms| && syms[b.s].Ite?
    && !syms[b.s].t.IsSym() && !syms[b.s].e.IsSym() && syms[b.s].t.b != 0 && syms[b.s].e.b != 0
  }

  /** `x` is a select, and `y` concrete or a plain wire. */
  predicate SelectOver(syms: seq<Sym>, x: V, y: V) {
    && x.IsSym() && x.s < |syms| && syms[x.s].Ite?
    && (!y.IsSym() || (y.s < |syms| && syms[y.s].Wire?))
  }

  lemma AlwaysTrapsEarlier(syms0: seq<Sym>, syms1: seq<Sym>, o: Bin, b: V, r: Status)
    requires syms0 <= syms1 && OkV(b, |syms0|) && (r.Diverged? ==> AlwaysTraps(syms1, o, b))
    ensures r.Diverged? ==> AlwaysTraps(syms0, o, b)
  {
    if r.Diverged? {
      forall inp
        ensures Traps(o, Val(Valuation(syms0, inp), b))
      {
        ValuationPrefix(syms0, syms1, inp);
        assert Traps(o, Val(Valuation(syms1, inp), b));
      }
    }
  }

  /** An arm that always divides by zero: its divisor is the whole operation's. */
  lemma ArmTraps(syms: seq<Sym>, o: Bin, a: V, b: V, left: bool, x: V, r: Status)
    requires left || (o.DivU? || o.RemU? ==> NonzeroSelect(syms, b) && (x == syms[b.s].t || x == syms[b.s].e))
    requires r.Diverged? ==> AlwaysTraps(syms, o, if left then b else x)
    ensures r.Diverged? ==> AlwaysTraps(syms, o, b)
  {
    if r.Diverged? && !left {
      TrapsUnder(syms, o, x, []);
      assert false;
    }
  }

  lemma TrapsUnder(syms: seq<Sym>, o: Bin, b: V, inp: Inputs)
    requires AlwaysTraps(syms, o, b)
    ensures Traps(o, Val(Valuation(syms, inp), b))
  {
  }

  /** The two arms of a distributed operation, put together. */
  lemma Distributed(guards: seq<Lit>, syms0: seq<Sym>, o: Bin, a: V, b: V, left: bool, reqs0: seq<Req>, syms1: seq<Sym>,
                    reqs1: seq<Req>, t2: V, syms2: seq<Sym>, reqs2: seq<Req>, e2: V, syms3: seq<Sym>, v: V)
    requires OkSyms(syms0) && OkV(a, |syms0|) && OkV(b, |syms0|) && OkGuards(guards, syms0)
    requires var x := if left then a else b; x.IsSym() && syms0[x.s].Ite?
    requires !left ==> (o.DivU? || o.RemU? ==> NonzeroSelect(syms0, b))
    requires OkReqs(reqs1, syms1) && OkReqs(reqs2, syms2)
    requires Under(guards, reqs0, reqs1) && Under(guards, reqs1, reqs2)
    requires var x := syms0[(if left then a else b).s];
      && WorthUnder(guards, syms0, if left then BinOf(o, x.t, b) else BinOf(o, a, x.t), syms1, t2)
      && DivReqs(guards, syms0, o, if left then b else x.t, reqs0, syms1, reqs1)
      && WorthUnder(guards, syms1, if left then BinOf(o, x.e, b) else BinOf(o, a, x.e), syms2, e2)
      && DivReqs(guards, syms1, o, if left then b else x.e, reqs1, syms2, reqs2)
      && IsSelect(syms2, x.cond, t2, e2, syms3, v)
    requires OkSyms(syms3) && syms2 <= syms3 && Narrow(syms3, v)
    ensures WorthUnder(guards, syms0, BinOf(o, a, b), syms3, v)
    ensures DivReqs(guards, syms0, o, b, reqs0, syms3, reqs2) && Under(guards, reqs0, reqs2)
  {
    UnderTrans(guards, reqs0, reqs1, reqs2);
    WorthSelectUnder(guards, syms0, BinOf(o, a, b), left, syms1, t2, syms2, e2, syms3, v);
    if left {
      DivReqsBoth(guards, syms0, o, b, reqs0, syms1, reqs1, syms2, reqs2, syms3);
    } else {
      ArmReqs(guards, syms0, o, b, reqs0, syms1, reqs1, syms2, reqs2, syms3);
    }
  }

  lemma ArmReqs(guards: seq<Lit>, syms0: seq<Sym>, o: Bin, b: V, reqs0: seq<Req>, syms1: seq<Sym>, reqs1: seq<Req>,
                syms2: seq<Sym>, reqs2: seq<Req>, syms3: seq<Sym>)
    requires OkSyms(syms0) && OkV(b, |syms0|) && b.IsSym() && syms0[b.s].Ite?
    requires syms0 <= syms1 <= syms2 <= syms3 && OkGuards(guards, syms0)
    requires o.DivU? || o.RemU? ==> NonzeroSelect(syms0, b)
    requires reqs0 <= reqs1 <= reqs2 && OkReqs(reqs1, syms1) && OkReqs(reqs2, syms2)
    requires DivReqs(guards, syms0, o, syms0[b.s].t, reqs0, syms1, reqs1)
    requires DivReqs(guards, syms1, o, syms0[b.s].e, reqs1, syms2, reqs2)
    ensures DivReqs(guards, syms0, o, b, reqs0, syms3, reqs2)
  {
    forall inp
      ensures var vals := Valuation(syms3, inp);
        Taken(guards, vals) ==> (AllBind(reqs2, |reqs0|, vals) <==> !Traps(o, Val(Valuation(syms0, inp), b)))
    {
      SymWorth(syms0, inp, b.s);
      OkReqsStable(reqs1, guards, syms0, syms1);
      OkReqsStable(reqs1, guards, syms1, syms2);
      TakenStable(guards, syms1, syms3, inp);
      TakenStable(guards, syms2, syms3, inp);
      AllBindStable(reqs1, |reqs0|, syms1, syms3, inp);
      AllBindStable(reqs2, |reqs1|, syms2, syms3, inp);
      AllBindSplit(reqs0, reqs1, reqs2, Valuation(syms3, inp));
    }
  }

  // ----- comparisons -----

  predicate Signed(p: Cmp) { p.LtS? || p.GtS? || p.LeS? || p.GeS? }

  /** `p` with its operands swapped (signed comparisons are left as they are). */
  function Flipped(p: Cmp): Cmp {
    match p
    case LtU => GtU
    case GtU => LtU
    case LeU => GeU
    case GeU => LeU
    case other => other
  }

  lemma WorthFlipped(syms0: seq<Sym>, p: Cmp, a: V, b: V, syms1: seq<Sym>, v: V)
    requires !Signed(p) && Worth(syms0, CmpOf(Flipped(p), b, a), syms1, v)
    ensures Worth(syms0, CmpOf(p, a, b), syms1, v)
  {
    forall inp
      ensures DefVal(CmpOf(Flipped(p), b, a), Valuation(syms0, inp), inp) == DefVal(CmpOf(p, a, b),
        Valuation(syms0, inp), inp)
    {
    }
  }

  /** Comparing a {0,1} value with `k` gives the value itself. */
  predicate IsItself(p: Cmp, k: nat) {
    (p.Eq? && k == 1) || (p.Ne? && k == 0) || (p.GtU? && k == 0) || (p.GeU? && k == 1)
  }

  /** Comparing a {0,1} value with `k` gives its negation. */
  predicate IsNegation(p: Cmp, k: nat) {
    (p.Eq? && k == 0) || (p.Ne? && k == 1) || (p.LtU? && k == 1) || (p.LeU? && k == 0)
  }

  lemma WorthItself(syms: seq<Sym>, p: Cmp, a: V, k: nat)
    requires OkSyms(syms) && BoolLike(syms, a) && Narrow(syms, a) && IsItself(p, k)
    ensures Worth(syms, CmpOf(p, a, C(k)), syms, a)
  {
    forall inp
      ensures Val(Valuation(syms, inp), a) == DefVal(CmpOf(p, a, C(k)), Valuation(syms, inp), inp)
    {
      BoolLikeVal(syms, inp, a);
    }
  }

  lemma WorthNegation(syms0: seq<Sym>, p: Cmp, a: V, k: nat, syms1: seq<Sym>, v: V)
    requires OkSyms(syms0) && BoolLike(syms0, a) && IsNegation(p, k)
    requires Worth(syms0, NotOf(a), syms1, v)
    ensures Worth(syms0, CmpOf(p, a, C(k)), syms1, v)
  {
    forall inp
      ensures DefVal(NotOf(a), Valuation(syms0, inp), inp) == DefVal(CmpOf(p, a, C(k)), Valuation(syms0, inp), inp)
    {
      BoolLikeVal(syms0, inp, a);
    }
  }

  /** A comparison of a {0,1} wire with 0 or 1 that is the wire or its negation; others are not made. */
  predicate Folds(p: Cmp, k: nat) {
    IsItself(p, k) || IsNegation(p, k)
  }

  /** What a look-ahead sees of a condition: its value, that it is a wire, or nothing. */
  datatype Sight = Sees(taken: bool) | Wired | Blind

  function SightOf(syms: seq<Sym>, c: V): Sight
    decreases c.s
  {
    if c.s == 0 then Sees(c.b != 0)
    else if c.s >= |syms| then Blind
    else
      match syms[c.s]
      case Wire(width, _) => if width == 1 then Wired else Blind
      case Ite(_, t, e) =>
        if t.s >= c.s || e.s >= c.s then Blind
        else (match (SightOf(syms, t), SightOf(syms, e))
              case (Sees(a), Sees(b)) => if a == b then Sees(a) else Wired
              case _ => Blind)
      case _ => Blind
  }

  lemma {:induction false} SightStable(syms: seq<Sym>, more: seq<Sym>, c: V)
    requires syms <= more && c.s < |syms|
    ensures SightOf(more, c) == SightOf(syms, c)
    decreases c.s
  {
    if c.s != 0 && syms[c.s].Ite? && syms[c.s].t.s < c.s && syms[c.s].e.s < c.s {
      SightStable(syms, more, syms[c.s].t);
      SightStable(syms, more, syms[c.s].e);
    }
  }

  /** A condition classified as it is seen. */
  ghost predicate Sighted(sight: Sight, r: Status, k: Truth) {
    match sight
    case Sees(taken) => r.Ok? && k == Known(taken)
    case Wired => r.Ok? && k.OnWire?
    case Blind => r.Failed?
  }

  /** The comparison can be made: where selects are compared with constants, for every arm. */
  ghost predicate Compares(syms: seq<Sym>, p: Cmp, a: V, b: V)
    requires Narrow(syms, a) && Narrow(syms, b)
    decreases a.s + b.s
  {
    if a.IsSym() && syms[a.s].Ite? && !b.IsSym() then
      Compares(syms, p, syms[a.s].t, b) && Compares(syms, p, syms[a.s].e, b)
    else if b.IsSym() && syms[b.s].Ite? && !a.IsSym() then
      Compares(syms, p, a, syms[b.s].t) && Compares(syms, p, a, syms[b.s].e)
    else if a.IsSym() && BoolLike(syms, a) && !b.IsSym() && b.b <= 1 then Folds(p, b.b)
    else if b.IsSym() && BoolLike(syms, b) && !a.IsSym() && a.b <= 1 then Folds(Flipped(p), a.b)
    else true
  }

  lemma {:induction false} ComparesStable(syms: seq<Sym>, more: seq<Sym>, p: Cmp, a: V, b: V)
    requires syms <= more && Narrow(syms, a) && Narrow(syms, b)
    ensures Narrow(more, a) && Narrow(more, b) && Compares(more, p, a, b) == Compares(syms, p, a, b)
    decreases a.s + b.s
  {
    NarrowStable(syms, more, a);
    NarrowStable(syms, more, b);
    BoolLikeSame(syms, more, a);
    BoolLikeSame(syms, more, b);
    if a.IsSym() && syms[a.s].Ite? && !b.IsSym() {
      ComparesStable(syms, more, p, syms[a.s].t, b);
      ComparesStable(syms, more, p, syms[a.s].e, b);
    } else if b.IsSym() && syms[b.s].Ite? && !a.IsSym() {
      ComparesStable(syms, more, p, a, syms[b.s].t);
      ComparesStable(syms, more, p, a, syms[b.s].e);
    }
  }

  /** What a select is made of. */
  lemma SelectOk(syms: seq<Sym>, x: V)
    requires OkSyms(syms) && Narrow(syms, x) && x.IsSym() && syms[x.s].Ite?
    ensures var Ite(cond, t, e) := syms[x.s];
      IsCond(syms, cond) && t.s < x.s && e.s < x.s && Narrow(syms, t) && Narrow(syms, e)
  {
  }

  lemma CompareArms(syms: seq<Sym>, p: Cmp, a: V, b: V, left: bool)
    requires Narrow(syms, a) && Narrow(syms, b)
    requires var (x, y) := if left then (a, b) else (b, a); x.IsSym() && syms[x.s].Ite? && !y.IsSym()
    ensures Compares(syms, p, a, b)
       <==> if left then Compares(syms, p, syms[a.s].t, b) && Compares(syms, p, syms[a.s].e, b)
            else Compares(syms, p, a, syms[b.s].t) && Compares(syms, p, a, syms[b.s].e)
  {
  }

  lemma {:induction false} BoolLikeSame(syms: seq<Sym>, more: seq<Sym>, v: V)
    requires syms <= more && Narrow(syms, v)
    ensures BoolLike(more, v) == BoolLike(syms, v)
    decreases v.s
  {
    if v.IsSym() && syms[v.s].Ite? {
      BoolLikeSame(syms, more, syms[v.s].t);
      BoolLikeSame(syms, more, syms[v.s].e);
    }
  }

  // ----- truth values -----

  ghost predicate SameTruth(syms0: seq<Sym>, a: V, syms1: seq<Sym>, v: V) {
    && OkSyms(syms1) && syms0 <= syms1
    && forall inp :: (Val(Valuation(syms1, inp), v) != 0) == (Val(Valuation(syms0, inp), a) != 0)
  }

  lemma TruthOfNot(syms0: seq<Sym>, a: V, syms1: seq<Sym>, z: V, syms2: seq<Sym>, v: V)
    requires Worth(syms0, CmpOf(Eq, a, C(0)), syms1, z) && Worth(syms1, NotOf(z), syms2, v)
    ensures SameTruth(syms0, a, syms2, v)
  {
    forall inp
      ensures (Val(Valuation(syms2, inp), v) != 0) == (Val(Valuation(syms0, inp), a) != 0)
    {
      assert Val(Valuation(syms1, inp), z) == Bit(Val(Valuation(syms0, inp), a) == 0);
    }
  }

  ghost predicate Truthful(k: Truth, vals: seq<nat>) {
    if k.Known? then k.b else Val(vals, V(0, k.cond)) != 0
  }

  lemma SelectTruthAt(inp: Inputs, syms0: seq<Sym>, c: V, syms1: seq<Sym>, kt: Truth, syms2: seq<Sym>, ke: Truth)
    requires OkSyms(syms0) && 0 < c.s < |syms0| && syms0[c.s].Ite?
    requires Decides(syms0, syms0[c.s].t, syms1, kt) && Decides(syms1, syms0[c.s].e, syms2, ke)
    ensures syms0[c.s].cond < |syms0|
      && Valuation(syms0, inp)[syms0[c.s].cond] == Valuation(syms2, inp)[syms0[c.s].cond]
    ensures (Val(Valuation(syms0, inp), c) != 0)
         == if Valuation(syms0, inp)[syms0[c.s].cond] != 0 then Truthful(kt, Valuation(syms1, inp))
           else Truthful(ke, Valuation(syms2, inp))
  {
    SymWorth(syms0, inp, c.s);
    ValuationPrefix(syms0, syms1, inp);
    ValuationPrefix(syms1, syms2, inp);
  }

  /** What is known of both arms decides a select, or leaves it to its condition. */
  lemma SelectTruth(syms0: seq<Sym>, c: V, syms1: seq<Sym>, kt: Truth, syms2: seq<Sym>, ke: Truth)
    requires OkSyms(syms0) && 0 < c.s < |syms0| && syms0[c.s].Ite?
    requires Decides(syms0, syms0[c.s].t, syms1, kt) && Decides(syms1, syms0[c.s].e, syms2, ke)
    ensures kt == Known(true) && ke == Known(false) ==> Decides(syms0, c, syms2, OnWire(syms0[c.s].cond))
    ensures kt.Known? && ke == kt ==> Decides(syms0, c, syms2, kt)
    ensures kt == Known(false) && ke == Known(true) ==> IsNegated(syms0, c, syms0[c.s].cond)
  {
    var cond := syms0[c.s].cond;
    assert IsCond(syms0, cond);
    if kt == Known(true) && ke == Known(false) {
      forall inp
        ensures (Val(Valuation(syms0, inp), c) != 0) == (Val(Valuation(syms2, inp), V(0, cond)) != 0)
      {
        SelectTruthAt(inp, syms0, c, syms1, kt, syms2, ke);
      }
    } else if kt.Known? && ke == kt {
      forall inp
        ensures (Val(Valuation(syms0, inp), c) != 0) == kt.b
      {
        SelectTruthAt(inp, syms0, c, syms1, kt, syms2, ke);
      }
    } else if kt == Known(false) && ke == Known(true) {
      forall inp
        ensures (Val(Valuation(syms0, inp), c) != 0) == (Val(Valuation(syms0, inp), V(0, cond)) == 0)
      {
        SelectTruthAt(inp, syms0, c, syms1, kt, syms2, ke);
      }
    }
  }

  ghost predicate IsNegated(syms: seq<Sym>, c: V, cond: nat) {
    forall inp :: (Val(Valuation(syms, inp), c) != 0) == (Val(Valuation(syms, inp), V(0, cond)) == 0)
  }

  lemma NotTruth(syms0: seq<Sym>, c: V, cond: nat, syms2: seq<Sym>, syms3: seq<Sym>, n: V)
    requires IsCond(syms0, cond) && syms0 <= syms2
    requires IsNegated(syms0, c, cond)
    requires Worth(syms2, NotOf(V(0, cond)), syms3, n) && IsCond(syms3, n.s) && n.b == 0
    ensures Decides(syms0, c, syms3, OnWire(n.s))
  {
    forall inp
      ensures (Val(Valuation(syms0, inp), c) != 0) == (Val(Valuation(syms3, inp), n) != 0)
    {
      ValuationPrefix(syms0, syms2, inp);
    }
  }

  lemma Stable(syms: seq<Sym>, more: seq<Sym>, v: V, inp: Inputs)
    requires syms <= more && OkV(v, |syms|)
    ensures Val(Valuation(more, inp), v) == Val(Valuation(syms, inp), v) && OkV(v, |more|)
  {
    ValuationPrefix(syms, more, inp);
  }

  /** `o` is the boolean `w ? tb : eb`. */
  ghost predicate MuxesBool(s2: seq<Sym>, cond: nat, tb: V, eb: V, s6: seq<Sym>, o: V) {
    forall inp ::
      var v2 := Valuation(s2, inp);
      (Val(Valuation(s6, inp), o) != 0) == (if Val(v2, V(0, cond)) != 0 then Val(v2, tb) != 0 else Val(v2, eb) != 0)
  }

  /** `(cond ∧ t′) ∨ (¬cond ∧ e′)` selects between the booleans `t′` and `e′`. */
  lemma MuxIsSelect(s2: seq<Sym>, cond: nat, tb: V, eb: V, s3: seq<Sym>, a: V, s4: seq<Sym>, nc: V, s5: seq<Sym>, b: V,
                    s6: seq<Sym>, o: V)
    requires OkV(eb, |s2|) && 0 < cond < |s2|
    requires Worth(s2, BoolOf(And, V(0, cond), tb), s3, a) && Worth(s3, NotOf(V(0, cond)), s4, nc)
    requires Worth(s4, BoolOf(And, nc, eb), s5, b) && Worth(s5, BoolOf(Or, a, b), s6, o)
    ensures MuxesBool(s2, cond, tb, eb, s6, o)
  {
    NarrowOk(s3, a);
    forall inp
      ensures var v2 := Valuation(s2, inp);
        (Val(Valuation(s6, inp), o) != 0) == (if Val(v2, V(0, cond)) != 0 then Val(v2, tb) != 0 else Val(v2, eb) != 0)
    {
      Stable(s2, s3, V(0, cond), inp);
      Stable(s2, s3, eb, inp);
      Stable(s3, s4, eb, inp);
      Stable(s3, s4, a, inp);
      Stable(s4, s5, a, inp);
    }
  }

  lemma MuxDecides(syms0: seq<Sym>, c: V, cond: nat, t: V, e: V, s0: seq<Sym>, s1: seq<Sym>, tb: V, s2: seq<Sym>, eb: V,
                   s6: seq<Sym>, o: V)
    requires OkSyms(syms0) && syms0 <= s0 && 0 < c.s < |syms0| && syms0[c.s] == Ite(cond, t, e)
    requires OkV(tb, |s1|) && SameTruth(s0, t, s1, tb) && SameTruth(s1, e, s2, eb)
    requires MuxesBool(s2, cond, tb, eb, s6, o) && OkSyms(s6) && s2 <= s6
    requires o.IsSym() ==> o.b == 0 && IsCond(s6, o.s)
    ensures Decides(syms0, c, s6, if o.IsSym() then OnWire(o.s) else Known(o.b != 0))
  {
    forall inp
      ensures (Val(Valuation(s6, inp), o) != 0) == (Val(Valuation(syms0, inp), c) != 0)
    {
      SymWorth(syms0, inp, c.s);
      Stable(syms0, s0, V(0, cond), inp);
      Stable(syms0, s0, t, inp);
      Stable(syms0, s0, e, inp);
      Stable(s0, s1, e, inp);
      Stable(s0, s1, V(0, cond), inp);
      Stable(s1, s2, V(0, cond), inp);
      Stable(s1, s2, tb, inp);
    }
  }

  datatype Status = Ok | Diverged | Failed

  /** A branch condition: decided, or a `{0,1}` wire. */
  datatype Truth = Known(b: bool) | OnWire(cond: nat)

  ghost predicate Decides(syms0: seq<Sym>, c: V, syms1: seq<Sym>, k: Truth) {
    && OkSyms(syms1) && syms0 <= syms1
    && (k.OnWire? ==> IsCond(syms1, k.cond))
    && forall inp ::
         (Val(Valuation(syms0, inp), c) != 0) == (if k.Known? then k.b
           else Val(Valuation(syms1, inp), V(0, k.cond)) != 0)
  }

  // ----- folding, semantically -----

  lemma WorthIdentity(syms: seq<Sym>, o: Bin, a: V, b: V)
    requires OkSyms(syms) && Narrow(syms, a) && !b.IsSym() && IsIdentity(o, b.b)
    ensures Worth(syms, BinOf(o, a, b), syms, a)
  {
    forall inp
      ensures Val(Valuation(syms, inp), a) == DefVal(BinOf(o, a, b), Valuation(syms, inp), inp)
    {
      NarrowBound(syms, inp, a);
      IdentityVal(o, Val(Valuation(syms, inp), a), b.b);
    }
  }

  /** `x` is a wire and the concrete `y` has its low `width` bits set: `x & y` is `x`. */
  predicate MaskKeeps(syms: seq<Sym>, x: V, y: V) {
    && x.IsSym() && !y.IsSym() && x.s < |syms| && syms[x.s].Wire? && syms[x.s].width < 64
    && y.b % Pow2(syms[x.s].width) == Pow2(syms[x.s].width) - 1
  }

  lemma MaskVal(x: nat, y: nat, w: nat)
    requires w <= 32 && x < Pow2(w) && y % Pow2(w) == Pow2(w) - 1
    ensures BinVal(And, x, y) == x && BinVal(And, y, x) == x
  {
    var p := Pow2(w);
    var q := DivMod(y, p);
    AndMask(x, y, q, w, 32);
  }

  lemma DivMod(y: nat, p: nat) returns (q: nat)
    requires p > 0
    ensures y == p * q + y % p
  {
    q := y / p;
  }

  lemma WorthMask(syms: seq<Sym>, x: V, y: V)
    requires OkSyms(syms) && Narrow(syms, x) && MaskKeeps(syms, x, y)
    ensures Worth(syms, BinOf(And, x, y), syms, x) && Worth(syms, BinOf(And, y, x), syms, x)
  {
    var w := syms[x.s].width;
    forall inp
      ensures var vals := Valuation(syms, inp);
        BinVal(And, Val(vals, x), y.b) == Val(vals, x) && BinVal(And, y.b, Val(vals, x)) == Val(vals, x)
    {
      SymBound(syms, inp, x.s);
      MaskVal(Val(Valuation(syms, inp), x), y.b, w);
    }
  }

  /** Over {0,1} values, `x op y` for a boolean operation is the wasm bitwise operation. */
  lemma WorthBool(syms0: seq<Sym>, o: Bin, a: V, b: V, syms1: seq<Sym>, v: V)
    requires OkSyms(syms0) && BoolLike(syms0, a) && BoolLike(syms0, b) && (o.And? || o.Or? || o.Xor?)
    requires Worth(syms0, BoolOf(o, a, b), syms1, v)
    ensures Worth(syms0, BinOf(o, a, b), syms1, v)
  {
    hide OkSyms, Narrow, Valuation, BoolLike, Bitwise;
    forall inp
      ensures DefVal(BinOf(o, a, b), Valuation(syms0, inp), inp) == DefVal(BoolOf(o, a, b), Valuation(syms0, inp), inp)
    {
      BoolLikeVal(syms0, inp, a);
      BoolLikeVal(syms0, inp, b);
      BitwiseBool(o, Val(Valuation(syms0, inp), a), Val(Valuation(syms0, inp), b));
    }
  }

  /** `x ^ 1` of a {0,1} value is its negation. */
  lemma WorthNot(syms0: seq<Sym>, a: V, one: V, syms1: seq<Sym>, v: V)
    requires OkSyms(syms0) && BoolLike(syms0, a) && one == C(1)
    requires Worth(syms0, NotOf(a), syms1, v)
    ensures Worth(syms0, BoolOf(Xor, a, one), syms1, v) && Worth(syms0, BoolOf(Xor, one, a), syms1, v)
    ensures Worth(syms0, CmpOf(Eq, a, C(0)), syms1, v)
  {
  }

  /** A concrete operand of a boolean operation folds it to the other operand, or to a constant. */
  lemma WorthBoolFold(syms: seq<Sym>, o: Bin, x: V, y: V)
    requires OkSyms(syms) && BoolLike(syms, x) && BoolLike(syms, y) && !y.IsSym()
    ensures (o.And? && y.b != 0) || ((o.Or? || o.Xor?) && y.b == 0) ==>
      Worth(syms, BoolOf(o, x, y), syms, x) && Worth(syms, BoolOf(o, y, x), syms, x)
    ensures o.And? && y.b == 0 ==> Worth(syms, BoolOf(o, x, y), syms, C(0)) && Worth(syms, BoolOf(o, y, x), syms, C(0))
    ensures o.Or? && y.b != 0 ==> Worth(syms, BoolOf(o, x, y), syms, C(1)) && Worth(syms, BoolOf(o, y, x), syms, C(1))
  {
    BoolLikeNarrow(syms, x);
    forall inp
      ensures Val(Valuation(syms, inp), x) < 2
    {
      BoolLikeVal(syms, inp, x);
    }
  }

  /** The host's side of the machine: symbolic operations, branch guards, and requirements. */
  class Host {
    const memory: Memory
    /** The open arms, outermost first. */
    var guards: seq<Lit>
    /** What the circuit requires so far. */
    var reqs: seq<Req>
    /** Looking ahead for a panic: nothing may be lowered. */
    var probing: bool

    constructor (memory: Memory)
      requires memory.Valid() && Asked(memory.divs, memory.syms, [])
      ensures this.memory == memory && guards == [] && reqs == [] && !probing && Valid()
    {
      this.memory := memory;
      guards, reqs, probing := [], [], false;
    }

    ghost predicate Valid()
      reads this, memory
    {
      && memory.Valid() && OkGuards(guards, memory.syms) && OkReqs(reqs, memory.syms)
      && Asked(memory.divs, memory.syms, reqs)
    }

    // ----- guards -----

    /** Constrain the condition `cond` to `value`, where the current path is taken. */
    method RequireCond(cond: nat, value: bool) returns (r: Status)
      requires Valid() && IsCond(memory.syms, cond)
      modifies this`reqs
      ensures Valid() && !r.Diverged? && (probing <==> r.Failed?)
      ensures reqs == if probing then old(reqs) else old(reqs) + [Req(guards, V(0, cond), value)]
    {
      if probing {
        return Failed;
      }
      AskedStays(memory.divs, memory.syms, reqs, memory.syms, reqs + [Req(guards, V(0, cond), value)]);
      reqs := reqs + [Req(guards, V(0, cond), value)];
      r := Ok;
    }

    method ArmBegin(cond: nat, value: bool)
      requires Valid() && IsCond(memory.syms, cond)
      modifies this`guards
      ensures Valid() && guards == old(guards) + [Lit(cond, value)]
    {
      guards := guards + [Lit(cond, value)];
    }

    method ArmEnd()
      requires Valid() && |guards| > 0
      modifies this`guards
      ensures Valid() && guards == old(guards)[..|old(guards)| - 1]
    {
      guards := guards[..|guards| - 1];
    }

    // ----- lowering to wires -----

    /** A wire for operation `d`. */
    method Lower(d: Def) returns (v: V)
      requires Valid() && !d.Input? && !d.DivOf? && OkDef(d, |memory.syms|)
      modifies memory`syms
      ensures Valid() && Worth(old(memory.syms), d, memory.syms, v)
      ensures WireWidth(d) == 1 ==> IsCond(memory.syms, v.s) && v.b == 0
    {
      WorthWire(memory.syms, d);
      OkReqsStable(reqs, guards, memory.syms, memory.syms + [Wire(WireWidth(d), d)]);
      v := memory.NewSym(Wire(WireWidth(d), d));
    }

    method Select(cond: nat, t: V, e: V) returns (v: V)
      requires Valid() && IsCond(memory.syms, cond) && Narrow(memory.syms, t) && Narrow(memory.syms, e)
      modifies memory`syms
      ensures Valid() && old(memory.syms) <= memory.syms && Narrow(memory.syms, v)
      ensures IsSelect(old(memory.syms), cond, t, e, memory.syms, v)
      ensures BoolLike(old(memory.syms), t) && BoolLike(old(memory.syms), e) ==> BoolLike(memory.syms, v)
    {
      ghost var before := memory.syms;
      NarrowOk(memory.syms, t);
      NarrowOk(memory.syms, e);
      v := memory.NewIte(cond, t, e);
      OkReqsStable(reqs, guards, before, memory.syms);
      if BoolLike(before, t) && BoolLike(before, e) {
        BoolLikeStable(before, memory.syms, t);
        BoolLikeStable(before, memory.syms, e);
      }
    }

    /** A wire for a division in the open arms, whose divisor is not 0 where they are taken. */
    method LowerDivision(o: Bin, a: V, b: V) returns (v: V)
      requires Valid() && OkV(a, |memory.syms|) && OkV(b, |memory.syms|) && (b.IsSym() || b.b != 0)
      requires o.DivU? || o.RemU?
      modifies this`reqs, memory`syms, memory`divs
      ensures Valid() && WorthUnder(guards, old(memory.syms), BinOf(o, a, b), memory.syms, v)
      ensures reqs == if b.IsSym() then old(reqs) + [Req(guards, b, true)] else old(reqs)
    {
      ghost var (syms, reqs0) := (memory.syms, reqs);
      var def := DivOf(o, a, b, guards);
      WorthWire(syms, def);
      WorthDivision(guards, syms, o, a, b, syms + [Wire(32, def)], V(0, |syms|));
      v := memory.NewDivision(def);
      OkReqsStable(reqs, guards, syms, memory.syms);
      if b.IsSym() {
        reqs := reqs + [Req(guards, b, true)];
      }
      AskedStays(memory.divs - {|syms|}, syms, reqs0, syms, reqs);
      AskedMore(memory.divs - {|syms|}, syms, def, reqs);
      assert memory.divs - {|syms|} + {|syms|} == memory.divs;
    }

    method IntBin(o: Bin, a: V, b: V) returns (r: Status, v: V)
      requires Valid()
      requires Narrow(memory.syms, a) && Narrow(memory.syms, b)
      modifies this`reqs, memory`syms, memory`divs
      ensures Valid() && old(memory.syms) <= memory.syms
      ensures Under(guards, old(reqs), reqs) && (probing ==> reqs == old(reqs))
      ensures r.Ok? ==> WorthUnder(guards, old(memory.syms), BinOf(o, a, b), memory.syms, v)
      ensures r.Ok? ==> DivReqs(guards, old(memory.syms), o, b, old(reqs), memory.syms, reqs)
      ensures r.Diverged? ==> AlwaysTraps(old(memory.syms), o, b)
      ensures r.Failed? ==> probing
    {
      v := C(0);
      if probing {
        return Failed, v;
      }
      NarrowOk(memory.syms, a);
      NarrowOk(memory.syms, b);
      if o.Sub? && b == C(0) {
        WorthIdentity(memory.syms, o, a, b);
        WorthAnywhere(guards, memory.syms, BinOf(o, a, b), memory.syms, a);
        return Ok, a;
      }
      if !b.IsSym() && Traps(o, b.b) {
        return Diverged, v;
      }
      ghost var (syms, reqs0) := (memory.syms, reqs);
      r := Ok;
      // A quotient or remainder by a constant power of two is some of the bits, in any arm.
      if (o.DivU? || o.RemU?) && (b.IsSym() || LogOf(b.b).None?) {
        v := LowerDivision(o, a, b);
        if b.IsSym() {
          DivReqsOne(guards, syms, o, b, reqs0, memory.syms);
          return;
        }
      } else {
        v := Lower(BinOf(o, a, b));
        WorthAnywhere(guards, syms, BinOf(o, a, b), memory.syms, v);
      }
      DivReqsNone(guards, syms, o, b, reqs, memory.syms);
    }

    method IntCmp(p: Cmp, a: V, b: V) returns (r: Status, v: V)
      requires Valid()
      requires Narrow(memory.syms, a) && Narrow(memory.syms, b)
      modifies memory`syms
      ensures Valid() && old(memory.syms) <= memory.syms
      ensures !r.Diverged? && (r.Failed? <==> probing)
      ensures r.Ok? ==> Worth(old(memory.syms), CmpOf(p, a, b), memory.syms, v) && IsCond(memory.syms, v.s) && v.b == 0
    {
      if probing {
        return Failed, C(0);
      }
      NarrowOk(memory.syms, a);
      NarrowOk(memory.syms, b);
      v := Lower(CmpOf(p, a, b));
      r := Ok;
    }

    /** `1 − a` of a {0,1} value. */
    method Not(a: V) returns (v: V)
      requires Valid() && BoolLike(memory.syms, a)
      modifies memory`syms
      ensures Valid() && Worth(old(memory.syms), NotOf(a), memory.syms, v)
      ensures BoolLike(memory.syms, v)
      ensures if a.IsSym() then IsCond(memory.syms, v.s) && v.b == 0 else !v.IsSym()
    {
      if !a.IsSym() {
        v := C(Bit(a.b == 0));
      } else {
        BoolLikeNarrow(memory.syms, a);
        v := Lower(NotOf(a));
      }
    }

    method BoolOp(o: Bin, a: V, b: V) returns (r: Status, v: V)
      requires Valid()
      requires BoolLike(memory.syms, a) && BoolLike(memory.syms, b) && (o.And? || o.Or? || o.Xor?)
      modifies memory`syms
      ensures Valid() && old(memory.syms) <= memory.syms
      ensures !r.Diverged?
      ensures r.Ok? ==> Worth(old(memory.syms), BoolOf(o, a, b), memory.syms, v) && BoolLike(memory.syms, v)
      ensures r.Ok? && v.IsSym() ==>
        (v.b == 0 && IsCond(memory.syms, v.s)) || (v == a && !b.IsSym()) || (v == b && !a.IsSym())
      ensures r.Failed? ==> probing
    {
      if probing {
        return Failed, C(0);
      }
      r := Ok;
      // Fold a concrete operand first.
      if !b.IsSym() {
        v := FoldBool(o, a, b);
      } else if !a.IsSym() {
        v := FoldBool(o, b, a);
      } else {
        BoolLikeNarrow(memory.syms, a);
        BoolLikeNarrow(memory.syms, b);
        NarrowOk(memory.syms, a);
        NarrowOk(memory.syms, b);
        v := Lower(BoolOf(o, a, b));
      }
    }

    method FoldBool(o: Bin, x: V, y: V) returns (v: V)
      requires Valid() && BoolLike(memory.syms, x) && BoolLike(memory.syms, y) && !y.IsSym()
      requires o.And? || o.Or? || o.Xor?
      modifies memory`syms
      ensures Valid() && BoolLike(memory.syms, v)
      ensures v.IsSym() ==> v == x || (v.b == 0 && IsCond(memory.syms, v.s))
      ensures Worth(old(memory.syms), BoolOf(o, x, y), memory.syms, v)
      ensures Worth(old(memory.syms), BoolOf(o, y, x), memory.syms, v)
    {
      WorthBoolFold(memory.syms, o, x, y);
      if o.And? {
        v := if y.b != 0 then x else C(0);
      } else if o.Or? {
        v := if y.b != 0 then C(1) else x;
      } else if y.b == 0 {
        v := x;
      } else {
        ghost var syms := memory.syms;
        v := Not(x);
        WorthNot(syms, x, y, memory.syms, v);
      }
    }

    // ----- operations on symbolic values -----

    method BinAny(o: Bin, a: V, b: V) returns (r: Status, v: V)
      requires Valid() && Narrow(memory.syms, a) && Narrow(memory.syms, b)
      modifies this`reqs, memory`syms, memory`divs
      ensures Valid() && old(memory.syms) <= memory.syms
      ensures Under(guards, old(reqs), reqs) && (probing ==> reqs == old(reqs))
      ensures r.Ok? ==> WorthUnder(guards, old(memory.syms), BinOf(o, a, b), memory.syms, v)
      ensures r.Ok? ==> DivReqs(guards, old(memory.syms), o, b, old(reqs), memory.syms, reqs)
      ensures r.Diverged? ==> AlwaysTraps(old(memory.syms), o, b)
      ensures r.Failed? ==> probing && (a.IsSym() || b.IsSym())
      decreases a.s + b.s, 2
    {
      if a.IsSym() || b.IsSym() {
        r, v := SymBin(o, a, b);
      } else if Traps(o, b.b) {
        r, v := Diverged, C(0);
      } else {
        r, v := Ok, C(BinVal(o, a.b, b.b));
        assert Worth(memory.syms, BinOf(o, a, b), memory.syms, v);
        WorthAnywhere(guards, memory.syms, BinOf(o, a, b), memory.syms, v);
        DivReqsNone(guards, memory.syms, o, b, reqs, memory.syms);
      }
    }

    /** `o` applied to both arms of the select operand `left ? a : b`. */
    method DistributeBin(o: Bin, a: V, b: V, left: bool) returns (r: Status, v: V)
      requires Valid() && Narrow(memory.syms, a) && Narrow(memory.syms, b)
      requires var x := if left then a else b; x.IsSym() && memory.syms[x.s].Ite?
      requires !left ==> (o.DivU? || o.RemU? ==> NonzeroSelect(memory.syms, b))
      modifies this`reqs, memory`syms, memory`divs
      ensures Valid() && old(memory.syms) <= memory.syms
      ensures Under(guards, old(reqs), reqs) && (probing ==> reqs == old(reqs))
      ensures r.Ok? ==> WorthUnder(guards, old(memory.syms), BinOf(o, a, b), memory.syms, v)
      ensures r.Ok? ==> DivReqs(guards, old(memory.syms), o, b, old(reqs), memory.syms, reqs)
      ensures r.Diverged? ==> AlwaysTraps(old(memory.syms), o, b)
      ensures r.Failed? ==> probing
      decreases a.s + b.s, 0
    {
      hide Asked, Valuation, DefVal, IsSelect, Worth, WorthUnder, OkCells, ExactCounts;
      ghost var (syms0, reqs0) := (memory.syms, reqs);
      var x := if left then a else b;
      var Ite(cond, t, e) := memory.syms[x.s];
      var (ta, tb) := if left then (t, b) else (a, t);
      var (ea, eb) := if left then (e, b) else (a, e);
      NarrowOk(syms0, a);
      NarrowOk(syms0, b);
      var t2, e2;
      r, t2 := BinAny(o, ta, tb);
      if !r.Ok? {
        ArmTraps(syms0, o, a, b, left, t, r);
        return r, t2;
      }
      ghost var (syms1, reqs1) := (memory.syms, reqs);
      NarrowStable(syms0, syms1, ea);
      NarrowStable(syms0, syms1, eb);
      r, e2 := BinAny(o, ea, eb);
      UnderTrans(guards, reqs0, reqs1, reqs);
      if !r.Ok? {
        AlwaysTrapsEarlier(syms0, syms1, o, eb, r);
        ArmTraps(syms0, o, a, b, left, e, r);
        return r, e2;
      }
      ghost var (syms2, reqs2) := (memory.syms, reqs);
      NarrowStable(syms1, syms2, t2);
      v := Select(cond, t2, e2);
      Distributed(guards, syms0, o, a, b, left, reqs0, syms1, reqs1, t2, syms2, reqs2, e2, memory.syms, v);
    }

    method SymBin(o: Bin, a: V, b: V) returns (r: Status, v: V)
      requires Valid() && Narrow(memory.syms, a) && Narrow(memory.syms, b)
      modifies this`reqs, memory`syms, memory`divs
      ensures Valid() && old(memory.syms) <= memory.syms
      ensures Under(guards, old(reqs), reqs) && (probing ==> reqs == old(reqs))
      ensures r.Ok? ==> WorthUnder(guards, old(memory.syms), BinOf(o, a, b), memory.syms, v)
      ensures r.Ok? ==> DivReqs(guards, old(memory.syms), o, b, old(reqs), memory.syms, reqs)
      ensures r.Diverged? ==> AlwaysTraps(old(memory.syms), o, b)
      ensures r.Failed? ==> probing
      decreases a.s + b.s, 1
    {
      // A select with a concrete or plain-wire other operand: apply the operation to both arms. Not a
      // select divisor, unless both its arms are nonzero constants.
      var divides := (o.DivU? || o.RemU?) && !NonzeroSelect(memory.syms, b);
      if SelectOver(memory.syms, a, b) {
        r, v := DistributeBin(o, a, b, true);
        return;
      }
      if !divides && SelectOver(memory.syms, b, a) {
        r, v := DistributeBin(o, a, b, false);
        return;
      }
      ghost var syms := memory.syms;
      if (o.And? || o.Or? || o.Xor?) && BoolLike(memory.syms, a) && BoolLike(memory.syms, b) {
        r, v := BoolOp(o, a, b);
        if r.Ok? {
          WorthBool(syms, o, a, b, memory.syms, v);
          WorthAnywhere(guards, syms, BinOf(o, a, b), memory.syms, v);
          DivReqsNone(guards, syms, o, b, reqs, memory.syms);
        }
        return;
      }
      if o.And? && (MaskKeeps(memory.syms, a, b) || MaskKeeps(memory.syms, b, a)) {
        DivReqsNone(guards, syms, o, b, reqs, memory.syms);
        if MaskKeeps(memory.syms, a, b) {
          WorthMask(syms, a, b);
          WorthAnywhere(guards, syms, BinOf(o, a, b), syms, a);
          return Ok, a;
        }
        WorthMask(syms, b, a);
        WorthAnywhere(guards, syms, BinOf(o, a, b), syms, b);
        return Ok, b;
      }
      if !b.IsSym() && IsIdentity(o, b.b) {
        WorthIdentity(syms, o, a, b);
        WorthAnywhere(guards, syms, BinOf(o, a, b), syms, a);
        DivReqsNone(guards, syms, o, b, reqs, memory.syms);
        return Ok, a;
      }
      r, v := IntBin(o, a, b);
    }

    method CmpAny(p: Cmp, a: V, b: V) returns (r: Status, v: V)
      requires Valid() && Narrow(memory.syms, a) && Narrow(memory.syms, b)
      modifies memory`syms
      ensures Valid() && old(memory.syms) <= memory.syms && !r.Diverged?
      ensures r.Ok? ==> Worth(old(memory.syms), CmpOf(p, a, b), memory.syms, v)
      ensures r.Failed? ==> a.IsSym() || b.IsSym()
      ensures !probing ==> (r.Failed? <==> !Compares(old(memory.syms), p, a, b))
      decreases a.s + b.s, 4
    {
      if a.IsSym() || b.IsSym() {
        r, v := SymCmp(p, a, b);
      } else {
        r, v := Ok, C(Bit(CmpVal(p, a.b, b.b)));
      }
    }

    method DistributeCmp(p: Cmp, a: V, b: V, left: bool) returns (r: Status, v: V)
      requires Valid() && Narrow(memory.syms, a) && Narrow(memory.syms, b)
      requires var (x, y) := if left then (a, b) else (b, a); x.IsSym() && memory.syms[x.s].Ite? && !y.IsSym()
      modifies memory`syms
      ensures Valid() && old(memory.syms) <= memory.syms && !r.Diverged?
      ensures r.Ok? ==> Worth(old(memory.syms), CmpOf(p, a, b), memory.syms, v)
      ensures !probing ==> (r.Failed? <==> !Compares(old(memory.syms), p, a, b))
      decreases a.s + b.s, 1
    {
      hide Asked, Valuation, DefVal, IsSelect, Worth, OkCells, ExactCounts, Compares, OkGuards, OkReqs, BoolLike,
        OkJournal;
      ghost var syms0 := memory.syms;
      CompareArms(syms0, p, a, b, left);
      SelectOk(syms0, if left then a else b);
      var Ite(cond, t, e) := memory.syms[(if left then a else b).s];
      var (ta, tb) := if left then (t, b) else (a, t);
      var (ea, eb) := if left then (e, b) else (a, e);
      NarrowOk(syms0, a);
      NarrowOk(syms0, b);
      v := C(0);
      hide OkSyms, Narrow;
      var t2, e2;
      ghost var syms1;
      r, t2, e2, syms1 := BothCmp(p, ta, tb, ea, eb, a.s + b.s);
      if r.Ok? {
        ghost var syms2 := memory.syms;
        assert IsCond(syms2, cond);
        v := Select(cond, t2, e2);
        WorthSelect(syms0, CmpOf(p, a, b), left, syms1, t2, syms2, e2, memory.syms, v);
      }
    }

    /** The comparison on both arms. */
    method BothCmp(p: Cmp, ta: V, tb: V, ea: V, eb: V, ghost n: nat)
      returns (r: Status, t2: V, e2: V, ghost syms1: seq<Sym>)
      requires Valid() && ta.s + tb.s < n && ea.s + eb.s < n
      requires Narrow(memory.syms, ta) && Narrow(memory.syms, tb) && Narrow(memory.syms, ea) && Narrow(memory.syms, eb)
      modifies memory`syms
      ensures Valid() && old(memory.syms) <= syms1 <= memory.syms && !r.Diverged?
      ensures r.Ok? ==> Narrow(memory.syms, t2) && Narrow(memory.syms, e2)
      ensures r.Ok? ==> Worth(old(memory.syms), CmpOf(p, ta, tb), syms1, t2)
      ensures r.Ok? ==> Worth(syms1, CmpOf(p, ea, eb), memory.syms, e2)
      ensures !probing ==>
        (r.Failed? <==> !(Compares(old(memory.syms), p, ta, tb) && Compares(old(memory.syms), p, ea, eb)))
      decreases n, 0
    {
      hide Asked, Valuation, DefVal, OkCells, ExactCounts, Compares, OkSyms, OkGuards, OkReqs, BoolLike, OkJournal,
        Narrow;
      ghost var syms0 := memory.syms;
      e2 := C(0);
      r, t2 := CmpAny(p, ta, tb);
      syms1 := memory.syms;
      if r.Ok? {
        ComparesStable(syms0, syms1, p, ea, eb);
        r, e2 := CmpAny(p, ea, eb);
        if r.Ok? {
          NarrowStable(syms1, memory.syms, t2);
        }
      }
    }

    method SymCmp(p: Cmp, a: V, b: V) returns (r: Status, v: V)
      requires Valid() && Narrow(memory.syms, a) && Narrow(memory.syms, b) && (a.IsSym() || b.IsSym())
      modifies memory`syms
      ensures Valid() && old(memory.syms) <= memory.syms && !r.Diverged?
      ensures r.Ok? ==> Worth(old(memory.syms), CmpOf(p, a, b), memory.syms, v)
      ensures r.Ok? && a.IsSym() && !old(memory.syms)[a.s].Ite? && BoolLike(old(memory.syms), a) && !b.IsSym()
        && b.b <= 1
        ==> !Signed(p)
      ensures !probing ==> (r.Failed? <==> !Compares(old(memory.syms), p, a, b))
      decreases a.s + b.s, if b.IsSym() then 3 else 2
    {
      if a.IsSym() && memory.syms[a.s].Ite? && !b.IsSym() {
        r, v := DistributeCmp(p, a, b, true);
        return;
      }
      if b.IsSym() && memory.syms[b.s].Ite? && !a.IsSym() {
        r, v := DistributeCmp(p, a, b, false);
        return;
      }
      // A {0,1} value compared with 0 or 1.
      if BoolLike(memory.syms, a) && !b.IsSym() && b.b <= 1 {
        r, v := BoolCmp(p, a, b.b);
        return;
      }
      if b.IsSym() && BoolLike(memory.syms, b) && !a.IsSym() && a.b <= 1 {
        ghost var syms := memory.syms;
        r, v := SymCmp(Flipped(p), b, a);
        if r.Ok? {
          WorthFlipped(syms, p, a, b, memory.syms, v);
        }
        return;
      }
      r, v := IntCmp(p, a, b);
    }

    method BoolCmp(p: Cmp, a: V, k: nat) returns (r: Status, v: V)
      requires Valid() && BoolLike(memory.syms, a) && k <= 1
      modifies memory`syms
      ensures Valid() && old(memory.syms) <= memory.syms && !r.Diverged?
      ensures r.Ok? ==> Worth(old(memory.syms), CmpOf(p, a, C(k)), memory.syms, v)
      ensures r.Ok? ==> !Signed(p)
      ensures r.Failed? <==> !Folds(p, k)
    {
      ghost var syms := memory.syms;
      if IsItself(p, k) {
        BoolLikeNarrow(syms, a);
        WorthItself(syms, p, a, k);
        return Ok, a;
      }
      if IsNegation(p, k) {
        v := Not(a);
        WorthNegation(syms, p, a, k, memory.syms, v);
        return Ok, v;
      }
      return Failed, C(0);
    }

    // ----- truth values -----

    method SymEqz(a: V) returns (r: Status, v: V)
      requires Valid() && Narrow(memory.syms, a) && a.IsSym()
      modifies memory`syms
      ensures Valid() && old(memory.syms) <= memory.syms && !r.Diverged?
      ensures r.Ok? ==> Worth(old(memory.syms), CmpOf(Eq, a, C(0)), memory.syms, v) && BoolLike(memory.syms, v)
      ensures r.Failed? ==> probing
      decreases a.s, 0
    {
      ghost var syms0 := memory.syms;
      if memory.syms[a.s].Ite? {
        var Ite(cond, t, e) := memory.syms[a.s];
        NarrowOk(syms0, a);
        var t2, e2;
        r, t2 := EqzAny(t);
        if !r.Ok? {
          return r, t2;
        }
        ghost var syms1 := memory.syms;
        NarrowStable(syms0, syms1, e);
        r, e2 := EqzAny(e);
        if !r.Ok? {
          return r, e2;
        }
        ghost var syms2 := memory.syms;
        NarrowStable(syms1, syms2, t2);
        BoolLikeStable(syms1, syms2, t2);
        v := Select(cond, t2, e2);
        WorthSelect(syms0, CmpOf(Eq, a, C(0)), true, syms1, t2, syms2, e2, memory.syms, v);
      } else if BoolLike(memory.syms, a) {
        r := Ok;
        v := Not(a);
        WorthNot(syms0, a, C(1), memory.syms, v);
      } else {
        r, v := IntCmp(Eq, a, C(0));
      }
    }

    method EqzAny(a: V) returns (r: Status, v: V)
      requires Valid() && Narrow(memory.syms, a)
      modifies memory`syms
      ensures Valid() && old(memory.syms) <= memory.syms && !r.Diverged?
      ensures r.Ok? ==> Worth(old(memory.syms), CmpOf(Eq, a, C(0)), memory.syms, v) && BoolLike(memory.syms, v)
      ensures r.Failed? ==> probing && a.IsSym()
      decreases a.s, 1
    {
      if a.IsSym() {
        r, v := SymEqz(a);
      } else {
        r, v := Ok, C(Bit(a.b == 0));
      }
    }

    /** `a ≠ 0` as a {0,1} value. */
    method Truthy(a: V) returns (r: Status, v: V)
      requires Valid() && Narrow(memory.syms, a)
      modifies memory`syms
      ensures Valid() && old(memory.syms) <= memory.syms && !r.Diverged?
      ensures r.Ok? ==> BoolLike(memory.syms, v) && SameTruth(old(memory.syms), a, memory.syms, v)
      ensures r.Failed? ==> probing
    {
      r := Ok;
      if !a.IsSym() {
        v := C(Bit(a.b != 0));
      } else if BoolLike(memory.syms, a) {
        v := a;
      } else {
        ghost var syms0 := memory.syms;
        var z;
        r, z := EqzAny(a);
        if !r.Ok? {
          return r, z;
        }
        ghost var syms1 := memory.syms;
        v := Not(z);
        TruthOfNot(syms0, a, syms1, z, memory.syms, v);
      }
    }

    /** Classify a branch condition. */
    method Cond(c: V) returns (r: Status, k: Truth)
      requires Valid() && Narrow(memory.syms, c)
      modifies memory`syms
      ensures Valid() && old(memory.syms) <= memory.syms && !r.Diverged?
      ensures r.Ok? ==> Decides(old(memory.syms), c, memory.syms, k)
      ensures r.Failed? ==> probing
      ensures probing ==> Sighted(SightOf(old(memory.syms), c), r, k)
      ensures !c.IsSym() ==> r.Ok? && k == Known(c.b != 0)
      decreases c.s
    {
      r := Ok;
      if !c.IsSym() {
        return Ok, Known(c.b != 0);
      }
      if memory.syms[c.s].Ite? {
        r, k := CondOfSelect(c, memory.syms[c.s].cond, memory.syms[c.s].t, memory.syms[c.s].e);
      } else if memory.syms[c.s].Wire? && memory.syms[c.s].width == 1 {
        k := OnWire(c.s);
      } else {
        r, k := IsNonzero(c);
      }
    }

    method IsNonzero(c: V) returns (r: Status, k: Truth)
      requires Valid() && Narrow(memory.syms, c)
      modifies memory`syms
      ensures Valid() && old(memory.syms) <= memory.syms && !r.Diverged?
      ensures r.Ok? ==> Decides(old(memory.syms), c, memory.syms, k)
      ensures r.Failed? <==> probing
    {
      var nz;
      r, nz := IntCmp(Ne, c, C(0));
      k := OnWire(nz.s);
    }

    method CondOfSelect(c: V, cond: nat, t: V, e: V) returns (r: Status, k: Truth)
      requires Valid() && Narrow(memory.syms, c) && c.IsSym() && memory.syms[c.s] == Ite(cond, t, e)
      modifies memory`syms
      ensures Valid() && old(memory.syms) <= memory.syms && !r.Diverged?
      ensures r.Ok? ==> Decides(old(memory.syms), c, memory.syms, k)
      ensures r.Failed? ==> probing
      ensures probing ==> Sighted(SightOf(old(memory.syms), c), r, k)
      decreases c.s, 0
    {
      ghost var syms0 := memory.syms;
      var kt, ke;
      NarrowOk(syms0, c);
      r, kt := Cond(t);
      if !r.Ok? {
        return r, kt;
      }
      ghost var syms1 := memory.syms;
      SightStable(syms0, syms1, e);
      NarrowStable(syms0, syms1, e);
      r, ke := Cond(e);
      if !r.Ok? {
        return r, ke;
      }
      SelectTruth(syms0, c, syms1, kt, memory.syms, ke);
      if kt == Known(true) && ke == Known(false) {
        return Ok, OnWire(cond);
      }
      if kt == Known(false) && ke == Known(true) {
        ghost var syms2 := memory.syms;
        var n := Not(V(0, cond));
        NotTruth(syms0, c, cond, syms2, memory.syms, n);
        return Ok, OnWire(n.s);
      }
      if kt.Known? && ke == kt {
        return Ok, kt;
      }
      // `(cond ∧ t′) ∨ (¬cond ∧ e′)`, with `x′` standing for `x ≠ 0`.
      if probing {
        return Failed, kt;
      }
      NarrowStable(syms0, memory.syms, t);
      NarrowStable(syms0, memory.syms, e);
      r, k := MuxTruth(cond, t, e, c, syms0);
    }

    method MuxTruth(cond: nat, t: V, e: V, ghost c: V, ghost syms0: seq<Sym>) returns (r: Status, k: Truth)
      requires Valid() && IsCond(memory.syms, cond) && Narrow(memory.syms, t) && Narrow(memory.syms, e)
      requires OkSyms(syms0) && syms0 <= memory.syms && 0 < c.s < |syms0| && syms0[c.s] == Ite(cond, t, e)
      modifies memory`syms
      ensures Valid() && old(memory.syms) <= memory.syms && !r.Diverged?
      ensures r.Ok? ==> Decides(syms0, c, memory.syms, k)
      ensures r.Failed? ==> probing
    {
      k := Known(false);
      ghost var s0 := memory.syms;
      var tb, eb, o;
      r, tb := Truthy(t);
      if !r.Ok? {
        return;
      }
      ghost var s1 := memory.syms;
      NarrowStable(s0, s1, e);
      r, eb := Truthy(e);
      if !r.Ok? {
        return;
      }
      ghost var s2 := memory.syms;
      BoolLikeStable(s1, s2, tb);
      BoolLikeNarrow(s1, tb);
      NarrowOk(s1, tb);
      r, o := MuxBool(cond, tb, eb);
      if !r.Ok? {
        return;
      }
      MuxDecides(syms0, c, cond, t, e, s0, s1, tb, s2, eb, memory.syms, o);
      k := if o.IsSym() then OnWire(o.s) else Known(o.b != 0);
    }

    /** `(cond ∧ tb) ∨ (¬cond ∧ eb)`. */
    method MuxBool(cond: nat, tb: V, eb: V) returns (r: Status, o: V)
      requires Valid() && IsCond(memory.syms, cond) && BoolLike(memory.syms, tb) && BoolLike(memory.syms, eb)
      modifies memory`syms
      ensures Valid() && old(memory.syms) <= memory.syms && !r.Diverged?
      ensures r.Ok? ==> MuxesBool(old(memory.syms), cond, tb, eb, memory.syms, o)
      ensures r.Ok? && o.IsSym() ==> o.b == 0 && IsCond(memory.syms, o.s)
      ensures r.Failed? ==> probing
    {
      var w := V(0, cond);
      ghost var s2 := memory.syms;
      var a, b;
      r, a := BoolOp(And, w, tb);
      if !r.Ok? {
        return r, a;
      }
      ghost var s3 := memory.syms;
      var nc := Not(w);
      ghost var s4 := memory.syms;
      BoolLikeStable(s2, s4, eb);
      r, b := BoolOp(And, nc, eb);
      if !r.Ok? {
        return r, b;
      }
      ghost var s5 := memory.syms;
      BoolLikeStable(s3, s5, a);
      r, o := BoolOp(Or, a, b);
      if r.Ok? {
        BoolLikeNarrow(s2, eb);
        NarrowOk(s2, eb);
        MuxIsSelect(s2, cond, tb, eb, s3, a, s4, nc, s5, b, memory.syms, o);
      }
    }
  }
}
