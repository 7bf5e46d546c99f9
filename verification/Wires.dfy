/** The rows emitted for a symbol table force every symbol to be worth what the symbolic machine takes it for, and have
    such a solution for all inputs that let the divisors be. */
module Wires {
  import opened Words
  import opened Fields
  import opened Linear
  import opened Circuits
  import opened Solving
  import opened WordOps
  import opened Nums
  import opened NumDivision
  import opened NumOrder
  import opened Integers
  import opened Symbols
  import S = SymValues
  import P = Pointers
  import X = Indexing

  // ----- symbol tables -----

  /** A constant, or an earlier symbol. */
  predicate OkOperand(a: S.V, i: nat) {
    if a.s == 0 then a.b < Pow2(64) else a.s < i
  }

  function Wider(a: nat, b: nat): nat { if a > b then a else b }

  /** Up to the last byte that may not be zero. */
  function Used(cells: seq<S.Cell>): (n: nat)
    ensures n <= |cells|
  {
    if cells == [] then 0
    else
      var last := cells[|cells| - 1];
      if last.sb.Some? || last.byte != 0 then |cells| else Used(cells[..|cells| - 1])
  }

  /** A bound on the symbol's width in bits. */
  function SymWidth(syms: seq<S.Sym>, i: nat): nat
    decreases i, 0
  {
    if i >= |syms| then 0
    else
      match syms[i]
      case NoSym => 0
      case Wire(width, _) => width
      case Ite(_, t, e) => if t.s < i && e.s < i then Wider(OperandWidth(syms, t), OperandWidth(syms, e)) else 0
      case Bytes(cells) => 8 * Used(cells)
  }

  function OperandWidth(syms: seq<S.Sym>, a: S.V): nat
    decreases a.s, 1
  {
    if a.s == 0 then BitLength(a.b) else SymWidth(syms, a.s)
  }

  /** Symbol `i` of a table of i32 values, and 64-bit words of memory, is made of constants and earlier symbols. */
  predicate OkWire(syms: seq<S.Sym>, i: nat)
    requires i < |syms|
  {
    match syms[i]
    case NoSym => false
    case Wire(width, def) => OkDef(syms, i, width, def)
    case Ite(cond, t, e) => S.IsCond(syms, cond) && cond < i && OkOperand(t, i) && OkOperand(e, i)
    case Bytes(cells) => |cells| <= 8 && forall j :: 0 <= j < |cells| && cells[j].sb.Some? ==>
      0 < cells[j].sb.value.sym < i
  }

  predicate OkDef(syms: seq<S.Sym>, i: nat, width: nat, def: S.Def) {
    match def
    case Input(_) => width <= 32
    case BinOf(o, a, b) => width == 32 && OkWord(syms, a, i) && OkWord(syms, b, i) && (Divides(o) ==> IsPow2(b))
    case DivOf(o, a, b, guards) =>
      && width == 32 && OkWord(syms, a, i) && OkWord(syms, b, i) && Divides(o) && !IsPow2(b) && b != S.C(0)
      && forall j :: 0 <= j < |guards| ==> S.IsCond(syms, guards[j].cond) && guards[j].cond < i
    case CmpOf(_, a, b) => width == 1 && OkWord(syms, a, i) && OkWord(syms, b, i)
    case NotOf(a) => width == 1 && OkBit(syms, a, i)
    case BoolOf(_, a, b) => width == 1 && OkBit(syms, a, i) && OkBit(syms, b, i)
  }

  predicate Divides(o: S.Bin) {
    o.DivU? || o.RemU?
  }

  /** A constant power of two. */
  predicate IsPow2(b: S.V) {
    b.s == 0 && LogOf(b.b).Some?
  }

  /** An operand of 32 bits. */
  predicate OkWord(syms: seq<S.Sym>, a: S.V, i: nat) {
    OkOperand(a, i) && OperandWidth(syms, a) <= 32
  }

  /** An operand that is 0 or 1. */
  predicate OkBit(syms: seq<S.Sym>, a: S.V, i: nat) {
    OkOperand(a, i) && OperandWidth(syms, a) <= 1
  }

  predicate Table(syms: seq<S.Sym>) {
    |syms| > 0 && syms[0] == S.NoSym && forall i :: 1 <= i < |syms| ==> OkWire(syms, i)
  }

  lemma TableOk(syms: seq<S.Sym>)
    requires Table(syms)
    ensures S.OkSyms(syms)
  {
    Pow256IsPow2(8);
    forall i | 1 <= i < |syms|
      ensures S.OkSym(syms[i], i) && (syms[i].Ite? ==> S.IsCond(syms, syms[i].cond))
    {
      assert OkWire(syms, i);
    }
  }

  /** No symbol is wider than a word of memory. */
  lemma {:induction false} WidthFits(syms: seq<S.Sym>, i: nat)
    requires Table(syms) && 0 < i < |syms|
    ensures SymWidth(syms, i) <= 64
    decreases i
  {
    assert OkWire(syms, i);
    if syms[i].Ite? {
      OperandFits(syms, syms[i].t, i);
      OperandFits(syms, syms[i].e, i);
    }
  }

  lemma {:induction false} OperandFits(syms: seq<S.Sym>, a: S.V, i: nat)
    requires Table(syms) && 0 < i < |syms| && OkOperand(a, i)
    ensures OperandWidth(syms, a) <= 64
    decreases i, 0
  {
    if a.s == 0 {
      BitLengthBounds(a.b, 64);
    } else {
      WidthFits(syms, a.s);
    }
  }

  // ----- nums -----

  /** The nums of the input wires. */
  ghost predicate OkInputs(p: Prime, c: Circuit, syms: seq<S.Sym>, inputs: map<nat, Num>)
    requires Indexed(c)
  {
    forall i :: 1 <= i < |syms| && IsInput(syms, i) ==> i in inputs && OkNum(p, c, inputs[i], syms[i].width)
  }

  predicate IsInput(syms: seq<S.Sym>, i: nat) {
    i < |syms| && syms[i].Wire? && syms[i].def.Input?
  }

  /** The solution gives the input wires what the inputs `inp` give them. */
  ghost predicate InputsAgree(p: Prime, syms: seq<S.Sym>, inputs: map<nat, Num>, s: Assignment, inp: S.Inputs) {
    forall i :: 1 <= i < |syms| && IsInput(syms, i) && i in inputs ==>
      NumVal(p, inputs[i], s) == S.Valuation(syms, inp)[i]
  }

  ghost predicate Worths(p: Prime, syms: seq<S.Sym>, nums: seq<Num>, s: Assignment, inp: S.Inputs)
    requires |nums| <= |syms|
  {
    forall i :: 1 <= i < |nums| ==> NumVal(p, nums[i], s) == S.Valuation(syms, inp)[i]
  }

  predicate DivisionAt(syms: seq<S.Sym>, i: nat) {
    i < |syms| && S.IsDivision(syms[i])
  }

  /** If symbol `i` is a division, its divisor is not 0 where its arms are taken. */
  ghost predicate DivisorOk(syms: seq<S.Sym>, i: nat, inp: S.Inputs) {
    DivisionAt(syms, i) ==>
      var vals := S.Valuation(syms, inp);
      S.Taken(syms[i].def.guards, vals) ==> S.Val(vals, syms[i].def.b) != 0
  }

  /** No division among the first `n` symbols is by zero where its arms are taken. */
  ghost predicate NeverByZero(syms: seq<S.Sym>, n: nat, inp: S.Inputs) {
    forall i :: 1 <= i < n ==> DivisorOk(syms, i, inp)
  }

  ghost predicate Fitting(p: Prime, c: Circuit, syms: seq<S.Sym>, nums: seq<Num>)
    requires Indexed(c)
  {
    forall i :: 1 <= i < |nums| ==> OkNum(p, c, nums[i], SymWidth(syms, i))
  }

  /** The rows force the symbols lowered so far: every solution gives them their worth. */
  ghost predicate Forced(p: Prime, c: Circuit, syms: seq<S.Sym>, inputs: map<nat, Num>, nums: seq<Num>)
    requires Indexed(c) && |nums| <= |syms|
  {
    && Fitting(p, c, syms, nums)
    && forall s: Assignment, inp: S.Inputs :: Meets(p, c, s) && InputsAgree(p, syms, inputs, s, inp) ==>
         Worths(p, syms, nums, s, inp) && NeverByZero(syms, |nums|, inp)
  }

  /** Symbol `i` adds variables with at most one value, and with one in every earlier solution that does not divide
      by zero at it. */
  ghost predicate PinnedSym(p: Prime, c: Circuit, d: Circuit, syms: seq<S.Sym>, inputs: map<nat, Num>, i: nat)
    requires Indexed(c) && Indexed(d)
  {
    && Forces(p, c, d)
    && forall s: Assignment, inp: S.Inputs ::
         Meets(p, c, s) && InputsAgree(p, syms, inputs, s, inp) && DivisorOk(syms, i, inp) ==> Completes(p, c, d, s)
  }

  lemma PinnedIsSym(p: Prime, c: Circuit, d: Circuit, syms: seq<S.Sym>, inputs: map<nat, Num>, i: nat)
    requires Indexed(c) && Indexed(d) && Pinned(p, c, d)
    ensures PinnedSym(p, c, d, syms, inputs, i)
  {
    hide Indexed, Meets, Completes, InputsAgree, DivisorOk, Forces;
  }

  /** As `PinnedSym`, for the first `n` symbols. */
  ghost predicate PinnedTable(p: Prime, c: Circuit, d: Circuit, syms: seq<S.Sym>, inputs: map<nat, Num>, n: nat)
    requires Indexed(c) && Indexed(d)
  {
    && Forces(p, c, d)
    && forall s: Assignment, inp: S.Inputs ::
         Meets(p, c, s) && InputsAgree(p, syms, inputs, s, inp) && NeverByZero(syms, n, inp) ==> Completes(p, c, d, s)
  }

  lemma PinnedTableSelf(p: Prime, c: Circuit, syms: seq<S.Sym>, inputs: map<nat, Num>, n: nat)
    requires Indexed(c)
    ensures PinnedTable(p, c, c, syms, inputs, n)
  {
    PinnedSelf(p, c);
    hide Indexed, Meets, Completes, InputsAgree, NeverByZero, Forces;
  }

  /** An assignment with the same input variables has the same inputs. */
  lemma SameInputs(p: Prime, c: Circuit, syms: seq<S.Sym>, inputs: map<nat, Num>, s: Assignment, t: Assignment,
                   inp: S.Inputs)
    requires Indexed(c) && OkInputs(p, c, syms, inputs) && SameBelow(s, t, c.next)
    ensures InputsAgree(p, syms, inputs, s, inp) <==> InputsAgree(p, syms, inputs, t, inp)
  {
    hide Indexed, Meets, S.Valuation, NumVal;
    forall i | 1 <= i < |syms| && IsInput(syms, i)
      ensures i in inputs && NumVal(p, inputs[i], s) == NumVal(p, inputs[i], t)
    {
      assert OkNum(p, c, inputs[i], syms[i].width);
      SameNum(p, c, inputs[i], syms[i].width, s, t);
    }
  }

  lemma SameNum(p: Prime, c: Circuit, x: Num, w: nat, s: Assignment, t: Assignment)
    requires Indexed(c) && OkNum(p, c, x, w) && SameBelow(s, t, c.next)
    ensures NumVal(p, x, s) == NumVal(p, x, t)
  {
    hide Indexed, Meets, Value;
    if x.Wire? {
      SameValue(p, x.lc, c.next, s, t);
    }
  }

  /** One more symbol of a table. */
  lemma PinnedTableTrans(p: Prime, c: Circuit, d: Circuit, e: Circuit, syms: seq<S.Sym>, inputs: map<nat, Num>, n: nat)
    requires Indexed(c) && Indexed(d) && Indexed(e) && OkInputs(p, c, syms, inputs) && n >= 1
    requires PinnedTable(p, c, d, syms, inputs, n) && PinnedSym(p, d, e, syms, inputs, n)
    ensures PinnedTable(p, c, e, syms, inputs, n + 1)
  {
    hide Indexed, Meets, InputsAgree, DivisorOk, OkInputs;
    ForcesTrans(p, c, d, e);
    assert c.next <= d.next;
    hide Forces;
    forall s: Assignment, inp: S.Inputs |
      Meets(p, c, s) && InputsAgree(p, syms, inputs, s, inp) && NeverByZero(syms, n + 1, inp)
      ensures Completes(p, c, e, s)
    {
      assert NeverByZero(syms, n, inp) && DivisorOk(syms, n, inp);
      assert Completes(p, c, d, s);
      var t: Assignment :| Meets(p, d, t) && SameBelow(s, t, c.next);
      SameInputs(p, c, syms, inputs, s, t, inp);
      assert Completes(p, d, e, t);
      CompletesTrans(p, c, d, e, s, t);
    }
  }

  /** On no solution's inputs are all divisors as they must be. */
  ghost predicate Hopeless(p: Prime, c: Circuit, syms: seq<S.Sym>, inputs: map<nat, Num>)
    requires Indexed(c)
  {
    forall s: Assignment, inp: S.Inputs :: Meets(p, c, s) && InputsAgree(p, syms, inputs, s, inp) ==>
      !NeverByZero(syms, |syms|, inp)
  }

  lemma FewerDivisors(syms: seq<S.Sym>, n: nat, inp: S.Inputs)
    requires n <= |syms|
    ensures NeverByZero(syms, |syms|, inp) ==> NeverByZero(syms, n, inp)
  {
  }

  lemma HopelessBefore(p: Prime, c: Circuit, d: Circuit, syms: seq<S.Sym>, inputs: map<nat, Num>, n: nat)
    requires Indexed(c) && Indexed(d) && PinnedTable(p, c, d, syms, inputs, n) && Unsolvable(p, d) && n <= |syms|
    ensures Hopeless(p, c, syms, inputs)
  {
    hide Indexed, Meets, InputsAgree, NeverByZero, Forces;
    forall s: Assignment, inp: S.Inputs | Meets(p, c, s) && InputsAgree(p, syms, inputs, s, inp)
      ensures !NeverByZero(syms, |syms|, inp)
    {
      FewerDivisors(syms, n, inp);
    }
  }

  function Operand(nums: seq<Num>, a: S.V): Num
    requires a.s < |nums|
  {
    if a.s == 0 then Known(a.b) else nums[a.s]
  }

  lemma OperandOk(p: Prime, c: Circuit, syms: seq<S.Sym>, nums: seq<Num>, a: S.V)
    requires Indexed(c) && Table(syms) && 0 < |nums| < |syms| && Fitting(p, c, syms, nums) && OkOperand(a, |nums|)
    ensures OkNum(p, c, Operand(nums, a), OperandWidth(syms, a)) && OperandWidth(syms, a) <= 64
  {
    hide Meets, Table;
    OperandFits(syms, a, |nums|);
    if a.s == 0 {
      BitLengthBounds(a.b, 64);
    }
  }

  /** A num that fits a width fits a wider one. */
  lemma NumWider(p: Prime, c: Circuit, x: Num, w: nat, reg: nat)
    requires Indexed(c) && OkNum(p, c, x, w) && w <= reg
    ensures OkNum(p, c, x, reg)
  {
    hide Meets;
    Pow2Mono(w, reg);
  }

  lemma OperandVal(p: Prime, syms: seq<S.Sym>, nums: seq<Num>, a: S.V, s: Assignment, inp: S.Inputs)
    requires 0 < |nums| <= |syms| && OkOperand(a, |nums|) && Worths(p, syms, nums, s, inp)
    ensures NumVal(p, Operand(nums, a), s) == S.Val(S.Valuation(syms, inp), a)
  {
  }

  // ----- what the table says -----

  lemma DefFits(syms: seq<S.Sym>, i: nat, width: nat, def: S.Def, vals: seq<nat>, inp: S.Inputs)
    requires OkDef(syms, i, width, def) && !def.Input?
    ensures S.DefVal(def, vals, inp) < Pow2(width)
  {
    hide S.BinVal, S.CmpVal, S.Val, OkOperand, OkBit;
    S.TwoTo32();
    assert Pow2(1) == 2;
  }

  /** What the table says of the wire `i`. */
  lemma WireWorth(syms: seq<S.Sym>, inp: S.Inputs, i: nat)
    requires Table(syms) && 1 <= i < |syms| && syms[i].Wire? && !syms[i].def.Input?
    ensures S.Valuation(syms, inp)[i] == S.DefVal(syms[i].def, S.Valuation(syms, inp), inp)
  {
    TableOk(syms);
    assert OkWire(syms, i);
    hide S.DefVal, S.Valuation, Pow2, S.OkSyms, Table, OkDef;
    S.SymWorth(syms, inp, i);
    DefFits(syms, i, syms[i].width, syms[i].def, S.Valuation(syms, inp), inp);
    ModSmall(S.DefVal(syms[i].def, S.Valuation(syms, inp), inp), Pow2(syms[i].width));
  }

  lemma OtherWorth(syms: seq<S.Sym>, inp: S.Inputs, i: nat)
    requires Table(syms) && 1 <= i < |syms| && !syms[i].Wire?
    ensures S.Valuation(syms, inp)[i] == S.SymVal(syms[i], S.Valuation(syms, inp), inp)
  {
    TableOk(syms);
    S.SymWorth(syms, inp, i);
  }

  /** A symbol whose num has its worth joins the others. */
  lemma Join(p: Prime, c: Circuit, d: Circuit, syms: seq<S.Sym>, inputs: map<nat, Num>, nums: seq<Num>, r: Num)
    requires Indexed(c) && Indexed(d) && 0 < |nums| < |syms| && Forced(p, c, syms, inputs, nums)
    requires Forces(p, c, d) && OkNum(p, d, r, SymWidth(syms, |nums|))
    requires forall s: Assignment, inp: S.Inputs :: Meets(p, d, s) && Worths(p, syms, nums, s, inp) ==>
      NumVal(p, r, s) == S.Valuation(syms, inp)[|nums|] && DivisorOk(syms, |nums|, inp)
    ensures Forced(p, d, syms, inputs, nums + [r])
  {
    hide Indexed, Meets, NumVal, S.Valuation, OkNum, Forces, InputsAgree, Fitting, SymWidth, DivisorOk;
    var all := nums + [r];
    JoinOk(p, c, d, syms, nums, r);
    forall s: Assignment, inp: S.Inputs | Meets(p, d, s) && InputsAgree(p, syms, inputs, s, inp)
      ensures Worths(p, syms, all, s, inp) && NeverByZero(syms, |all|, inp)
    {
      ForcedMeets(p, c, d, s);
      JoinWorth(p, syms, nums, r, s, inp);
    }
  }

  lemma JoinOk(p: Prime, c: Circuit, d: Circuit, syms: seq<S.Sym>, nums: seq<Num>, r: Num)
    requires Indexed(c) && Indexed(d) && Forces(p, c, d) && OkNum(p, d, r, SymWidth(syms, |nums|)) && 0 < |nums|
    requires Fitting(p, c, syms, nums)
    ensures Fitting(p, d, syms, nums + [r])
  {
    hide Indexed, Meets;
    ForcesTightens(p, c, d);
    hide Forces, Tightens, OkNum, SymWidth;
    forall i | 1 <= i < |nums + [r]|
      ensures OkNum(p, d, (nums + [r])[i], SymWidth(syms, i))
    {
      if i < |nums| {
        NumStays(p, c, d, nums[i], SymWidth(syms, i));
      }
    }
  }

  lemma JoinWorth(p: Prime, syms: seq<S.Sym>, nums: seq<Num>, r: Num, s: Assignment, inp: S.Inputs)
    requires 0 < |nums| < |syms|
    ensures Worths(p, syms, nums, s, inp) && NumVal(p, r, s) == S.Valuation(syms, inp)[|nums|] ==>
      Worths(p, syms, nums + [r], s, inp)
  {
    hide NumVal, S.Valuation;
    var all := nums + [r];
    assert forall i :: 1 <= i < |nums| ==> all[i] == nums[i];
  }

  lemma ForcedMeets(p: Prime, c: Circuit, d: Circuit, s: Assignment)
    requires Indexed(c) && Indexed(d) && Forces(p, c, d) && Meets(p, d, s)
    ensures Meets(p, c, s)
  {
    hide Indexed, Meets;
    assert AddsAt(p, c, d, s, true);
  }

  // ----- one symbol -----

  /** Lower the next symbol of the table: its rows force it. `None` only where no assignment is a solution. */
  method LowerSym(ints: Integers, syms: seq<S.Sym>, inputs: map<nat, Num>, nums: seq<Num>) returns (r: Option<Num>)
    requires ints.Valid() && ints.arms == [] && Table(syms) && OkInputs(ints.b.p, ints.b.Snap(), syms, inputs)
    requires 0 < |nums| < |syms| && Forced(ints.b.p, ints.b.Snap(), syms, inputs, nums)
    modifies ints, ints.b
    ensures ints.Valid() && ints.arms == []
    ensures PinnedSym(ints.b.p, old(ints.b.Snap()), ints.b.Snap(), syms, inputs, |nums|)
    ensures r.Some? ==> Forced(ints.b.p, ints.b.Snap(), syms, inputs, nums + [r.value])
    ensures r.None? ==> Unsolvable(ints.b.p, old(ints.b.Snap()))
  {
    hide Indexed, Meets, NumVal, S.Valuation, OkNum, Forced, InputsAgree, OkInputs, Pinned, Fitting, SymWidth,
      PinnedSym, Unsolvable;
    ghost var (p, c) := (ints.b.p, ints.b.Snap());
    assert OkWire(syms, |nums|);
    if DivisionAt(syms, |nums|) {
      r := LowerDivision(ints, syms, inputs, nums);
      return;
    }
    match syms[|nums|] {
      case Wire(_, def) =>
        match def {
          case Input(_) =>
            PinnedSelf(ints.b.p, ints.b.Snap());
            InputForced(ints.b.p, ints.b.Snap(), syms, inputs, nums);
            r := Some(inputs[|nums|]);
          case BinOf(_, _, _) => r := LowerWire(ints, syms, inputs, nums);
          case CmpOf(_, _, _) => r := LowerWire(ints, syms, inputs, nums);
          case NotOf(_) => var n := LowerBit(ints, syms, inputs, nums); r := Some(n);
          case BoolOf(_, _, _) => var n := LowerBit(ints, syms, inputs, nums); r := Some(n);
        }
      case Ite(_, _, _) => var n := LowerSelect(ints, syms, inputs, nums); r := Some(n);
      case Bytes(_) => r := LowerWord(ints, syms, inputs, nums);
    }
    PinnedIsSym(p, c, ints.b.Snap(), syms, inputs, |nums|);
  }

  /** An input wire's num joins the others. */
  lemma InputForced(p: Prime, c: Circuit, syms: seq<S.Sym>, inputs: map<nat, Num>, nums: seq<Num>)
    requires Indexed(c) && 0 < |nums| < |syms| && Forced(p, c, syms, inputs, nums) && OkInputs(p, c, syms, inputs)
    requires IsInput(syms, |nums|)
    ensures |nums| in inputs && Forced(p, c, syms, inputs, nums + [inputs[|nums|]])
  {
    hide Indexed, Meets, NumVal, S.Valuation, OkNum, Forces, Fitting, Worths, DivisorOk, Completes;
    var r := inputs[|nums|];
    PinnedSelf(p, c);
    assert Forces(p, c, c);
    assert OkNum(p, c, r, SymWidth(syms, |nums|));
    hide Pinned, OkInputs, SymWidth;
    JoinOk(p, c, c, syms, nums, r);
    NoDivisor(syms, |nums|);
    forall s: Assignment, inp: S.Inputs | Meets(p, c, s) && InputsAgree(p, syms, inputs, s, inp)
      ensures Worths(p, syms, nums + [r], s, inp) && NeverByZero(syms, |nums + [r]|, inp)
    {
      JoinWorth(p, syms, nums, r, s, inp);
    }
  }

  lemma NoDivisor(syms: seq<S.Sym>, i: nat)
    requires !DivisionAt(syms, i)
    ensures forall inp :: DivisorOk(syms, i, inp)
  {
  }

  /** An arithmetic operation or a comparison. */
  method LowerWire(ints: Integers, syms: seq<S.Sym>, inputs: map<nat, Num>, nums: seq<Num>) returns (r: Option<Num>)
    requires ints.Valid() && ints.arms == [] && Table(syms) && 0 < |nums| < |syms|
      && Forced(ints.b.p, ints.b.Snap(), syms, inputs, nums)
    requires syms[|nums|].Wire? && (syms[|nums|].def.BinOf? || syms[|nums|].def.CmpOf?)
    modifies ints, ints.b
    ensures ints.Valid() && ints.arms == [] && Pinned(ints.b.p, old(ints.b.Snap()), ints.b.Snap())
    ensures r.Some? ==> Forced(ints.b.p, ints.b.Snap(), syms, inputs, nums + [r.value])
    ensures r.None? ==> Unsolvable(ints.b.p, old(ints.b.Snap()))
  {
    hide Indexed, Meets, NumVal, S.Valuation, OkNum, Forced, Answers, Compares, InputsAgree, SymWidth, OkOperand,
      Pinned, PinnedDiv, Unsolvable;
    ghost var c := ints.b.Snap();
    assert OkWire(syms, |nums|);
    var def := syms[|nums|].def;
    OperandsOk(ints.b.p, c, syms, inputs, nums, def.a);
    OperandsOk(ints.b.p, c, syms, inputs, nums, def.b);
    var (x, y) := (Operand(nums, def.a), Operand(nums, def.b));
    match def {
      case BinOf(o, _, _) =>
        var res := ints.IntBin(Plain(o), 32, x, y);
        if Divides(o) {
          ConstantDivisor(ints.b.p, c, ints.b.Snap(), y);
        }
        r := None;
        if res.Done? {
          BinForced(ints.b.p, c, ints.b.Snap(), syms, inputs, nums, res.n);
          r := Some(res.n);
        }
      case CmpOf(o, _, _) =>
        var n := ints.CmpInts(o, 32, x, y);
        CmpForced(ints.b.p, c, ints.b.Snap(), syms, inputs, nums, n);
        r := Some(n);
    }
  }

  /** Dividing by a constant asks for nothing. */
  lemma ConstantDivisor(p: Prime, c: Circuit, d: Circuit, y: Num)
    requires Indexed(c) && Indexed(d) && PinnedDiv(p, c, d, [], y) && y.Known? && y.k != 0
    ensures Pinned(p, c, d)
  {
    hide Indexed, Meets, Completes, Forces, AllTaken;
    forall s: Assignment | Meets(p, c, s)
      ensures Completes(p, c, d, s)
    {
      assert Divisible(p, [], y, s);
    }
  }

  lemma OperandsOk(p: Prime, c: Circuit, syms: seq<S.Sym>, inputs: map<nat, Num>, nums: seq<Num>, a: S.V)
    requires Indexed(c) && Table(syms) && 0 < |nums| < |syms| && Forced(p, c, syms, inputs, nums)
      && OkWord(syms, a, |nums|)
    ensures OkOperand(a, |nums|) && a.s < |nums| && OkNum(p, c, Operand(nums, a), 32)
      && OkNum(p, c, Operand(nums, a), OperandWidth(syms, a))
  {
    hide Indexed, Meets, OkNum, Table, SymWidth, InputsAgree, Worths;
    OperandOk(p, c, syms, nums, a);
    NumWider(p, c, Operand(nums, a), OperandWidth(syms, a), 32);
  }

  lemma BinForced(p: Prime, c: Circuit, d: Circuit, syms: seq<S.Sym>, inputs: map<nat, Num>, nums: seq<Num>, r: Num)
    requires Indexed(c) && Indexed(d) && Table(syms) && 0 < |nums| < |syms| && Forced(p, c, syms, inputs, nums)
    requires Pinned(p, c, d) && syms[|nums|].Wire? && syms[|nums|].def.BinOf? && OkWire(syms, |nums|)
    requires var def := syms[|nums|].def;
      Answers(p, d, Plain(def.o), 32, Operand(nums, def.a), Operand(nums, def.b), [], r)
    ensures Forced(p, d, syms, inputs, nums + [r])
  {
    var def := syms[|nums|].def;
    var (x, y) := (Operand(nums, def.a), Operand(nums, def.b));
    hide Indexed, Meets, S.Valuation, AllTaken, WordVal, S.BinVal, Pow2, Table, InputsAgree;
    OperandsOk(p, c, syms, inputs, nums, def.a);
    OperandsOk(p, c, syms, inputs, nums, def.b);
    PinnedTightens(p, c, d);
    NumStays(p, c, d, x, 32);
    NumStays(p, c, d, y, 32);
    hide Answers, OkNum, Forced;
    forall s: Assignment, inp: S.Inputs | Meets(p, d, s) && Worths(p, syms, nums, s, inp)
      ensures NumVal(p, r, s) == S.Valuation(syms, inp)[|nums|]
    {
      NoArms(p, s);
      AnswerAt(p, d, def.o, x, y, [], r, s);
      OperandVal(p, syms, nums, def.a, s, inp);
      OperandVal(p, syms, nums, def.b, s, inp);
      WireWorth(syms, inp, |nums|);
    }
    AnswerOk(p, d, Plain(def.o), x, y, [], r);
    Join(p, c, d, syms, inputs, nums, r);
  }

  lemma AnswerOk(p: Prime, c: Circuit, op: IntOp, x: Num, y: Num, arms: seq<Arm>, r: Num)
    requires Indexed(c) && Answers(p, c, op, 32, x, y, arms, r)
    ensures OkNum(p, c, r, 32)
  {
  }

  /** Where its arms are taken, the emitted operation is the i32 operation of its operands, and a divisor is not 0;
      elsewhere a gated division is 0. */
  lemma AnswerAt(p: Prime, c: Circuit, o: S.Bin, x: Num, y: Num, arms: seq<Arm>, r: Num, s: Assignment)
    requires Indexed(c) && Answers(p, c, Plain(o), 32, x, y, arms, r) && Meets(p, c, s)
    requires OkNum(p, c, x, 32) && OkNum(p, c, y, 32)
    ensures AllTaken(p, arms, s) ==> NumVal(p, r, s) == S.BinVal(o, NumVal(p, x, s), NumVal(p, y, s))
    ensures AllTaken(p, arms, s) && Divides(o) ==> NumVal(p, y, s) != 0
    ensures !AllTaken(p, arms, s) && Gates(Plain(o), y) ==> NumVal(p, r, s) == 0
  {
    hide WordVal, S.BinVal, Pow2, Indexed, AllTaken, Gates;
    if AllTaken(p, arms, s) {
      assert NumVal(p, r, s) == WordVal(Plain(o), 32, NumVal(p, x, s), NumVal(p, y, s)) by { hide OkNum; }
      assert NumVal(p, x, s) < Pow2(32) && NumVal(p, y, s) < Pow2(32) by { NumBelow(p, c, x, s); NumBelow(p, c, y, s); }
      WordIsI32(o, NumVal(p, x, s), NumVal(p, y, s));
    }
  }

  lemma NumBelow(p: Prime, c: Circuit, x: Num, s: Assignment)
    requires Indexed(c) && OkNum(p, c, x, 32) && Meets(p, c, s)
    ensures NumVal(p, x, s) < Pow2(32)
  {
    hide Indexed, Meets;
    if x.Wire? {
      Pow2Mono(x.width, 32);
    }
  }

  lemma CmpForced(p: Prime, c: Circuit, d: Circuit, syms: seq<S.Sym>, inputs: map<nat, Num>, nums: seq<Num>, r: Num)
    requires Indexed(c) && Indexed(d) && Table(syms) && 0 < |nums| < |syms| && Forced(p, c, syms, inputs, nums)
    requires Pinned(p, c, d) && syms[|nums|].Wire? && syms[|nums|].def.CmpOf?
      && OkWire(syms, |nums|)
    requires var def := syms[|nums|].def;
      Compares(p, d, def.c, 32, Operand(nums, def.a), Operand(nums, def.b), r)
    ensures Forced(p, d, syms, inputs, nums + [r])
  {
    var def := syms[|nums|].def;
    var (x, y) := (Operand(nums, def.a), Operand(nums, def.b));
    hide Indexed, Meets, S.Valuation, WordCmp, S.CmpVal, Pow2, Table, InputsAgree, Fitting;
    forall s: Assignment, inp: S.Inputs | Meets(p, d, s) && Worths(p, syms, nums, s, inp)
      ensures NumVal(p, r, s) == S.Valuation(syms, inp)[|nums|]
    {
      OperandVal(p, syms, nums, def.a, s, inp);
      OperandVal(p, syms, nums, def.b, s, inp);
      WireWorth(syms, inp, |nums|);
      CmpIsI32(def.c, NumVal(p, x, s), NumVal(p, y, s));
    }
    Join(p, c, d, syms, inputs, nums, r);
  }

  /** A negation or a boolean operation. */
  method LowerBit(ints: Integers, syms: seq<S.Sym>, inputs: map<nat, Num>, nums: seq<Num>) returns (r: Num)
    requires ints.Valid() && Table(syms) && 0 < |nums| < |syms|
      && Forced(ints.b.p, ints.b.Snap(), syms, inputs, nums)
    requires syms[|nums|].Wire? && (syms[|nums|].def.NotOf? || syms[|nums|].def.BoolOf?)
    modifies ints, ints.b
    ensures ints.Valid() && Pinned(ints.b.p, old(ints.b.Snap()), ints.b.Snap()) && ints.arms == old(ints.arms)
    ensures Forced(ints.b.p, ints.b.Snap(), syms, inputs, nums + [r])
  {
    hide Indexed, Meets, NumVal, S.Valuation, OkNum, Forced, InputsAgree, SymWidth, OkOperand, OperandWidth;
    ghost var c := ints.b.Snap();
    PinnedSelf(ints.b.p, c);
    assert OkWire(syms, |nums|);
    var def := syms[|nums|].def;
    BitsOk(ints.b.p, c, syms, inputs, nums, def.a);
    match def {
      case NotOf(a) =>
        r := LowerNot(ints, Operand(nums, a));
      case BoolOf(o, a, b) =>
        BitsOk(ints.b.p, c, syms, inputs, nums, b);
        r := LowerBool(ints, o, Operand(nums, a), Operand(nums, b));
    }
    ghost var d := ints.b.Snap();
    assert forall s: Assignment :: Meets(ints.b.p, d, s) ==> BitIs(ints.b.p, def, nums, r, s);
    hide BitIs;
    BitForced(ints.b.p, c, d, syms, inputs, nums, r);
  }

  lemma BitsOk(p: Prime, c: Circuit, syms: seq<S.Sym>, inputs: map<nat, Num>, nums: seq<Num>, a: S.V)
    requires Indexed(c) && Table(syms) && 0 < |nums| < |syms| && Forced(p, c, syms, inputs, nums)
      && OkBit(syms, a, |nums|)
    ensures a.s < |nums| && OkNum(p, c, Operand(nums, a), 1)
  {
    hide Indexed, Meets, OkNum, Table, SymWidth, InputsAgree, Worths;
    OperandOk(p, c, syms, nums, a);
    NumWider(p, c, Operand(nums, a), OperandWidth(syms, a), 1);
  }

  lemma BitForced(p: Prime, c: Circuit, d: Circuit, syms: seq<S.Sym>, inputs: map<nat, Num>, nums: seq<Num>, r: Num)
    requires p > Pow2(253) && Indexed(c) && Indexed(d) && Table(syms) && 0 < |nums| < |syms|
    requires Forced(p, c, syms, inputs, nums) && Pinned(p, c, d) && OkNum(p, d, r, 1) && OkWire(syms, |nums|)
    requires syms[|nums|].Wire? && (syms[|nums|].def.NotOf? || syms[|nums|].def.BoolOf?)
    requires forall s: Assignment :: Meets(p, d, s) ==> BitIs(p, syms[|nums|].def, nums, r, s)
    ensures Forced(p, d, syms, inputs, nums + [r])
  {
    var def := syms[|nums|].def;
    BitWide(syms, |nums|);
    hide Indexed, Meets, S.Valuation, Pow2, Table, InputsAgree, OkNum, NumVal, OperandWidth, Fitting, SymWidth,
      S.BinVal, S.CmpVal, BitIs, OkOperand;
    BitsOk(p, c, syms, inputs, nums, def.a);
    if def.BoolOf? {
      BitsOk(p, c, syms, inputs, nums, def.b);
    }
    forall s: Assignment, inp: S.Inputs | Meets(p, d, s) && Worths(p, syms, nums, s, inp)
      ensures NumVal(p, r, s) == S.Valuation(syms, inp)[|nums|]
    {
      ForcedMeets(p, c, d, s);
      BitNumAt(p, c, Operand(nums, def.a), s);
      if def.BoolOf? {
        BitNumAt(p, c, Operand(nums, def.b), s);
      }
      BitAt(p, syms, nums, r, s, inp);
    }
    Join(p, c, d, syms, inputs, nums, r);
  }

  /** `r` is the negation or boolean operation of its operands' nums. */
  ghost predicate BitIs(p: Prime, def: S.Def, nums: seq<Num>, r: Num, s: Assignment) {
    match def
    case NotOf(a) => a.s < |nums| && NumVal(p, r, s) == 1 - NumVal(p, Operand(nums, a), s)
    case BoolOf(o, a, b) =>
      a.s < |nums| && b.s < |nums|
        && NumVal(p, r, s) == BitFn(o, NumVal(p, Operand(nums, a), s), NumVal(p, Operand(nums, b), s))
    case _ => false
  }

  lemma BitAt(p: Prime, syms: seq<S.Sym>, nums: seq<Num>, r: Num, s: Assignment, inp: S.Inputs)
    requires Table(syms) && 0 < |nums| < |syms| && syms[|nums|].Wire? && OkWire(syms, |nums|)
      && Worths(p, syms, nums, s, inp)
    requires var def := syms[|nums|].def; (def.NotOf? || def.BoolOf?) && BitIs(p, def, nums, r, s)
    requires var def := syms[|nums|].def;
      NumVal(p, Operand(nums, def.a), s) <= 1 && (def.BoolOf? ==> NumVal(p, Operand(nums, def.b), s) <= 1)
    ensures NumVal(p, r, s) == S.Valuation(syms, inp)[|nums|]
  {
    var def := syms[|nums|].def;
    hide S.Valuation, Table, NumVal, OperandWidth, S.BinVal, S.CmpVal;
    WireWorth(syms, inp, |nums|);
    OperandVal(p, syms, nums, def.a, s, inp);
    if def.BoolOf? {
      OperandVal(p, syms, nums, def.b, s, inp);
    }
  }

  lemma BitWide(syms: seq<S.Sym>, i: nat)
    requires i < |syms| && syms[i].Wire? && OkWire(syms, i) && (syms[i].def.NotOf? || syms[i].def.BoolOf?)
    ensures SymWidth(syms, i) == 1
  {
  }

  lemma BitNumAt(p: Prime, c: Circuit, x: Num, s: Assignment)
    requires p > Pow2(253) && Indexed(c) && OkNum(p, c, x, 1) && Meets(p, c, s)
    ensures NumVal(p, x, s) <= 1
  {
    hide Indexed, Meets, OkNum, NumVal, Pow2;
    OneBit(p, c, x);
  }

  /** A select. */
  method LowerSelect(ints: Integers, syms: seq<S.Sym>, inputs: map<nat, Num>, nums: seq<Num>) returns (r: Num)
    requires ints.Valid() && Table(syms) && 0 < |nums| < |syms|
      && Forced(ints.b.p, ints.b.Snap(), syms, inputs, nums)
    requires syms[|nums|].Ite?
    modifies ints, ints.b
    ensures ints.Valid() && Pinned(ints.b.p, old(ints.b.Snap()), ints.b.Snap()) && ints.arms == old(ints.arms)
    ensures Forced(ints.b.p, ints.b.Snap(), syms, inputs, nums + [r])
  {
    hide Indexed, Meets, NumVal, S.Valuation, OkNum, Forced, InputsAgree, OkOperand, Fitting, Muxes;
    ghost var c := ints.b.Snap();
    assert OkWire(syms, |nums|);
    var (cond, t, e) := (syms[|nums|].cond, syms[|nums|].t, syms[|nums|].e);
    SelectOk(ints.b.p, c, syms, inputs, nums);
    r := LowerMux(ints, nums[cond], Operand(nums, t), Operand(nums, e), SymWidth(syms, |nums|));
    SelectForced(ints.b.p, c, ints.b.Snap(), syms, inputs, nums, r);
  }

  lemma SelectOk(p: Prime, c: Circuit, syms: seq<S.Sym>, inputs: map<nat, Num>, nums: seq<Num>)
    requires Indexed(c) && Table(syms) && 0 < |nums| < |syms| && Forced(p, c, syms, inputs, nums)
      && syms[|nums|].Ite?
    ensures var (cond, t, e) := (syms[|nums|].cond, syms[|nums|].t, syms[|nums|].e);
      && OkWire(syms, |nums|) && 0 < cond < |nums| && t.s < |nums| && e.s < |nums| && OkNum(p, c, nums[cond], 1)
      && OkNum(p, c, Operand(nums, t), SymWidth(syms, |nums|)) && OkNum(p, c, Operand(nums, e), SymWidth(syms, |nums|))
      && SymWidth(syms, |nums|) <= 64
  {
    assert OkWire(syms, |nums|);
    var (cond, t, e) := (syms[|nums|].cond, syms[|nums|].t, syms[|nums|].e);
    WidthFits(syms, |nums|);
    assert SymWidth(syms, cond) == 1;
    hide Indexed, Meets, OkNum, Table, InputsAgree, Worths;
    OperandOk(p, c, syms, nums, t);
    OperandOk(p, c, syms, nums, e);
    NumWider(p, c, Operand(nums, t), OperandWidth(syms, t), SymWidth(syms, |nums|));
    NumWider(p, c, Operand(nums, e), OperandWidth(syms, e), SymWidth(syms, |nums|));
  }

  lemma SelectForced(p: Prime, c: Circuit, d: Circuit, syms: seq<S.Sym>, inputs: map<nat, Num>, nums: seq<Num>, r: Num)
    requires p > Pow2(253) && Indexed(c) && Indexed(d) && Table(syms) && 0 < |nums| < |syms|
    requires Forced(p, c, syms, inputs, nums) && Pinned(p, c, d) && OkNum(p, d, r, SymWidth(syms, |nums|))
    requires syms[|nums|].Ite? && OkWire(syms, |nums|)
    requires var (cond, t, e) := (syms[|nums|].cond, syms[|nums|].t, syms[|nums|].e);
      Muxes(p, d, nums[cond], Operand(nums, t), Operand(nums, e), r)
    ensures Forced(p, d, syms, inputs, nums + [r])
  {
    var (cond, t, e) := (syms[|nums|].cond, syms[|nums|].t, syms[|nums|].e);
    SelectOk(p, c, syms, inputs, nums);
    hide Indexed, Meets, S.Valuation, Pow2, Table, InputsAgree, OkNum, NumVal, SymWidth, Fitting, OkOperand, Operand;
    forall s: Assignment, inp: S.Inputs | Meets(p, d, s) && Worths(p, syms, nums, s, inp)
      ensures NumVal(p, r, s) == S.Valuation(syms, inp)[|nums|]
    {
      ForcedMeets(p, c, d, s);
      BitNumAt(p, c, nums[cond], s);
      SelectAt(p, syms, nums, r, s, inp);
    }
    Join(p, c, d, syms, inputs, nums, r);
  }

  lemma SelectAt(p: Prime, syms: seq<S.Sym>, nums: seq<Num>, r: Num, s: Assignment, inp: S.Inputs)
    requires Table(syms) && 0 < |nums| < |syms| && syms[|nums|].Ite? && OkWire(syms, |nums|)
      && Worths(p, syms, nums, s, inp)
    requires var (cond, t, e) := (syms[|nums|].cond, syms[|nums|].t, syms[|nums|].e);
      && NumVal(p, nums[cond], s) <= 1
      && NumVal(p, r, s) == if NumVal(p, nums[cond], s) == 1 then NumVal(p, Operand(nums, t), s)
        else NumVal(p, Operand(nums, e), s)
    ensures NumVal(p, r, s) == S.Valuation(syms, inp)[|nums|]
  {
    hide S.Valuation, Table, NumVal;
    OperandVal(p, syms, nums, syms[|nums|].t, s, inp);
    OperandVal(p, syms, nums, syms[|nums|].e, s, inp);
    OtherWorth(syms, inp, |nums|);
  }

  /** A word made of bytes. */
  method LowerWord(ints: Integers, syms: seq<S.Sym>, inputs: map<nat, Num>, nums: seq<Num>) returns (r: Option<Num>)
    requires ints.Valid() && Table(syms) && 0 < |nums| < |syms|
      && Forced(ints.b.p, ints.b.Snap(), syms, inputs, nums)
    requires syms[|nums|].Bytes?
    modifies ints, ints.b
    ensures ints.Valid() && Pinned(ints.b.p, old(ints.b.Snap()), ints.b.Snap()) && ints.arms == old(ints.arms)
    ensures r.Some? ==> Forced(ints.b.p, ints.b.Snap(), syms, inputs, nums + [r.value])
    ensures r.None? ==> Unsolvable(ints.b.p, old(ints.b.Snap()))
  {
    hide Indexed, Meets, NumVal, S.Valuation, OkNum, Forced, InputsAgree, OkOperand, Fitting, OkNums;
    ghost var c := ints.b.Snap();
    assert OkWire(syms, |nums|);
    var cells := syms[|nums|].cells;
    var used := cells[..Used(cells)];
    NumsFit(ints.b.p, c, syms, inputs, nums);
    r := LowerBytes(ints, nums, used);
    if r.Some? {
      WordForced(ints.b.p, c, ints.b.Snap(), syms, inputs, nums, r.value);
    }
  }

  lemma NumsFit(p: Prime, c: Circuit, syms: seq<S.Sym>, inputs: map<nat, Num>, nums: seq<Num>)
    requires Indexed(c) && Table(syms) && 0 < |nums| <= |syms| && Forced(p, c, syms, inputs, nums)
    ensures OkNums(p, c, nums)
  {
    hide Indexed, Meets, OkNum, Table, InputsAgree, Worths, SymWidth;
    forall i | 1 <= i < |nums|
      ensures OkNum(p, c, nums[i], 64)
    {
      WidthFits(syms, i);
      NumWider(p, c, nums[i], SymWidth(syms, i), 64);
    }
  }

  lemma {:induction false} TrailingZeros(p: Prime, nums: seq<Num>, cells: seq<S.Cell>, s: Assignment)
    ensures FromBytes(PiecesAt(p, nums, cells[..Used(cells)], s)) == FromBytes(PiecesAt(p, nums, cells, s))
    decreases |cells|
  {
    hide NumVal, FromBytes;
    if Used(cells) == |cells| {
      assert cells[..Used(cells)] == cells;
    } else {
      var (most, last) := (cells[..|cells| - 1], cells[|cells| - 1]);
      TrailingZeros(p, nums, most, s);
      assert cells[..Used(cells)] == most[..Used(most)];
      assert PiecesAt(p, nums, cells, s) == PiecesAt(p, nums, most, s) + [0];
      FromBytesSnoc(PiecesAt(p, nums, most, s), 0);
    }
  }

  lemma WordForced(p: Prime, c: Circuit, d: Circuit, syms: seq<S.Sym>, inputs: map<nat, Num>, nums: seq<Num>, r: Num)
    requires Indexed(c) && Indexed(d) && Table(syms) && 0 < |nums| < |syms| && Forced(p, c, syms, inputs, nums)
      && Pinned(p, c, d)
    requires syms[|nums|].Bytes? && OkWire(syms, |nums|) && OkNum(p, d, r, SymWidth(syms, |nums|))
    requires var cells := syms[|nums|].cells;
      forall s: Assignment :: Meets(p, d, s) ==>
        NumVal(p, r, s) == FromBytes(PiecesAt(p, nums, cells[..Used(cells)], s))
    ensures Forced(p, d, syms, inputs, nums + [r])
  {
    var cells := syms[|nums|].cells;
    hide Indexed, Meets, S.Valuation, Table, InputsAgree, OkNum, NumVal, SymWidth, Fitting, FromBytes;
    forall s: Assignment, inp: S.Inputs | Meets(p, d, s) && Worths(p, syms, nums, s, inp)
      ensures NumVal(p, r, s) == S.Valuation(syms, inp)[|nums|]
    {
      TrailingZeros(p, nums, cells, s);
      assert PiecesAt(p, nums, cells, s) == S.CellVals(S.Valuation(syms, inp), cells);
      OtherWorth(syms, inp, |nums|);
    }
    Join(p, c, d, syms, inputs, nums, r);
  }

  // ----- the arms of a guard -----

  /** The literal that is 1 where the guard is taken. */
  function LitLc(nums: seq<Num>, lit: S.Lit): Lc
    requires lit.cond < |nums|
  {
    if lit.value then LcOf(nums[lit.cond]) else Sub(Const(1), LcOf(nums[lit.cond]))
  }

  /** The guards' conditions are bits. */
  ghost predicate LitsFit(p: Prime, c: Circuit, nums: seq<Num>, guards: seq<S.Lit>)
    requires Indexed(c)
  {
    forall i :: 0 <= i < |guards| ==> guards[i].cond < |nums| && OkNum(p, c, nums[guards[i].cond], 1)
  }

  /** `arms` are opened for the guards. */
  ghost predicate ArmsOf(nums: seq<Num>, guards: seq<S.Lit>, arms: seq<Arm>) {
    |arms| == |guards| && forall i :: 0 <= i < |guards| ==>
      guards[i].cond < |nums| && arms[i].lit == LitLc(nums, guards[i])
  }

  method OpenArms(ints: Integers, nums: seq<Num>, guards: seq<S.Lit>)
    requires ints.Valid() && ints.arms == [] && LitsFit(ints.b.p, ints.b.Snap(), nums, guards)
    modifies ints`arms
    ensures ints.Valid() && ArmsOf(nums, guards, ints.arms)
  {
    hide Ordered, Indexed, OkCaches, Meets, IsPrime, Eval, Value, Pow2, OkNum;
    for i := 0 to |guards|
      invariant ints.Valid() && |ints.arms| == i
      invariant forall j :: 0 <= j < i ==> guards[j].cond < |nums| && ints.arms[j].lit == LitLc(nums, guards[j])
    {
      LitBit(ints.b.p, ints.b.Snap(), nums, guards[i]);
      ints.ArmBegin(LitLc(nums, guards[i]));
    }
  }

  method CloseArms(ints: Integers)
    requires ints.Valid()
    modifies ints`arms
    ensures ints.Valid() && ints.arms == []
  {
    hide Ordered, Indexed, OkCaches, Meets, IsPrime, Eval, Value, Pow2;
    while ints.arms != []
      invariant ints.Valid()
      decreases |ints.arms|
    {
      ints.ArmEnd();
    }
  }

  lemma LitBit(p: Prime, c: Circuit, nums: seq<Num>, lit: S.Lit)
    requires p > Pow2(253) && Indexed(c) && lit.cond < |nums| && OkNum(p, c, nums[lit.cond], 1)
    ensures Below(LitLc(nums, lit), c.next) && IsBit(p, c, LitLc(nums, lit))
    ensures forall s: Assignment :: Meets(p, c, s) ==>
      (Value(p, LitLc(nums, lit), s) == 1 <==> (NumVal(p, nums[lit.cond], s) != 0) == lit.value)
  {
    hide Indexed, Meets, Value, NumVal, OkNum;
    OneBit(p, c, nums[lit.cond]);
    forall s: Assignment | Meets(p, c, s)
      ensures Value(p, LitLc(nums, lit), s) <= 1
      ensures Value(p, LitLc(nums, lit), s) == 1 <==> (NumVal(p, nums[lit.cond], s) != 0) == lit.value
    {
      assert Value(p, LcOf(nums[lit.cond]), s) <= 1;
      NotValue(p, LcOf(nums[lit.cond]), s);
    }
  }

  /** The arms are taken where the guards are. */
  ghost predicate LitsTaken(p: Prime, nums: seq<Num>, guards: seq<S.Lit>, s: Assignment) {
    forall i :: 0 <= i < |guards| && guards[i].cond < |nums| ==>
      (NumVal(p, nums[guards[i].cond], s) != 0) == guards[i].value
  }

  lemma ArmsTaken(p: Prime, c: Circuit, nums: seq<Num>, guards: seq<S.Lit>, arms: seq<Arm>, s: Assignment)
    requires p > Pow2(253) && Indexed(c) && LitsFit(p, c, nums, guards) && ArmsOf(nums, guards, arms) && Meets(p, c, s)
    ensures AllTaken(p, arms, s) <==> LitsTaken(p, nums, guards, s)
  {
    hide Indexed, Meets, Value, NumVal, OkNum;
    forall i | 0 <= i < |guards|
      ensures Value(p, arms[i].lit, s) == 1 <==> (NumVal(p, nums[guards[i].cond], s) != 0) == guards[i].value
    {
      LitBit(p, c, nums, guards[i]);
    }
  }

  // ----- divisions -----

  /** The divisor of a gated division; a symbol is treated as one even if its form is a constant. */
  function Divisor(nums: seq<Num>, b: S.V): Num
    requires b.s < |nums|
  {
    if b.s == 0 then Known(b.b) else Wire(LcOf(nums[b.s]), WidthOf(nums[b.s]))
  }

  lemma DivisorFits(p: Prime, c: Circuit, nums: seq<Num>, b: S.V)
    requires p > Pow2(253) && Indexed(c) && b.s < |nums| && OkNum(p, c, Operand(nums, b), 32)
    ensures OkNum(p, c, Divisor(nums, b), 32)
    ensures forall s: Assignment :: NumVal(p, Divisor(nums, b), s) == NumVal(p, Operand(nums, b), s)
  {
    hide Indexed, Meets, Value;
    NumParts(p, c, Operand(nums, b), 32);
  }

  lemma WireAt(syms: seq<S.Sym>, i: nat)
    requires Table(syms) && 0 < i < |syms|
    ensures OkWire(syms, i)
  {
  }

  /** A division in the arms of its guards. */
  method LowerDivision(ints: Integers, syms: seq<S.Sym>, inputs: map<nat, Num>, nums: seq<Num>) returns (r: Option<Num>)
    requires ints.Valid() && ints.arms == [] && Table(syms) && 0 < |nums| < |syms|
      && Forced(ints.b.p, ints.b.Snap(), syms, inputs, nums)
    requires DivisionAt(syms, |nums|)
    modifies ints, ints.b
    ensures ints.Valid() && ints.arms == []
    ensures PinnedSym(ints.b.p, old(ints.b.Snap()), ints.b.Snap(), syms, inputs, |nums|)
    ensures r.Some? ==> Forced(ints.b.p, ints.b.Snap(), syms, inputs, nums + [r.value])
    ensures r.None? ==> Unsolvable(ints.b.p, old(ints.b.Snap()))
  {
    hide Indexed, Meets, NumVal, S.Valuation, OkNum, Forced, Answers, InputsAgree, SymWidth, OkOperand, PinnedDiv,
      Unsolvable, LitsFit, ArmsOf, PinnedSym, Table, Ordered, OkCaches, OkArms, OkCache, OkBounds, IsPrime;
    ghost var (p, c) := (ints.b.p, ints.b.Snap());
    WireAt(syms, |nums|);
    var def := syms[|nums|].def;
    OperandsOk(p, c, syms, inputs, nums, def.a);
    OperandsOk(p, c, syms, inputs, nums, def.b);
    DivisorFits(p, c, nums, def.b);
    GuardsFit(p, c, syms, inputs, nums, def.guards);
    OpenArms(ints, nums, def.guards);
    ghost var arms := ints.arms;
    var res := ints.DivOrRem(def.o, 32, Operand(nums, def.a), Divisor(nums, def.b));
    DivisionPinned(p, c, ints.b.Snap(), syms, inputs, nums, arms);
    r := None;
    if res.Done? {
      DivForced(p, c, ints.b.Snap(), syms, inputs, nums, arms, res.n);
      r := Some(res.n);
    }
    CloseArms(ints);
  }

  lemma GuardsFit(p: Prime, c: Circuit, syms: seq<S.Sym>, inputs: map<nat, Num>, nums: seq<Num>, guards: seq<S.Lit>)
    requires Indexed(c) && 0 < |nums| <= |syms| && Forced(p, c, syms, inputs, nums)
    requires forall i :: 0 <= i < |guards| ==> S.IsCond(syms, guards[i].cond) && guards[i].cond < |nums|
    ensures LitsFit(p, c, nums, guards)
  {
    hide Indexed, Meets, OkNum, InputsAgree, Worths, NeverByZero;
    forall i | 0 <= i < |guards|
      ensures OkNum(p, c, nums[guards[i].cond], 1)
    {
      assert SymWidth(syms, guards[i].cond) == 1;
    }
  }

  /** Where the nums have their worth, the literals are taken exactly where the guards are. */
  lemma GuardsTaken(p: Prime, syms: seq<S.Sym>, nums: seq<Num>, guards: seq<S.Lit>, s: Assignment, inp: S.Inputs)
    requires 0 < |nums| <= |syms| && Worths(p, syms, nums, s, inp)
    requires forall i :: 0 <= i < |guards| ==> 0 < guards[i].cond < |nums|
    ensures LitsTaken(p, nums, guards, s) <==> S.Taken(guards, S.Valuation(syms, inp))
  {
    hide NumVal, S.Valuation;
    var vals := S.Valuation(syms, inp);
    assert forall i :: 0 <= i < |guards| ==>
      S.Val(vals, S.V(0, guards[i].cond)) == NumVal(p, nums[guards[i].cond], s);
  }

  lemma DivisionPinned(p: Prime, c: Circuit, d: Circuit, syms: seq<S.Sym>, inputs: map<nat, Num>, nums: seq<Num>,
                       arms: seq<Arm>)
    requires p > Pow2(253) && Indexed(c) && Indexed(d) && 0 < |nums| < |syms| && Forced(p, c, syms, inputs, nums)
    requires DivisionAt(syms, |nums|) && OkWire(syms, |nums|)
    requires var def := syms[|nums|].def;
      && LitsFit(p, c, nums, def.guards) && ArmsOf(nums, def.guards, arms)
      && def.b.s < |nums| && OkOperand(def.b, |nums|) && OkNum(p, c, Operand(nums, def.b), 32)
      && PinnedDiv(p, c, d, arms, Divisor(nums, def.b))
    ensures PinnedSym(p, c, d, syms, inputs, |nums|)
  {
    var def := syms[|nums|].def;
    DivisorFits(p, c, nums, def.b);
    hide Indexed, Meets, Completes, Forces, AllTaken, NumVal, OkNum, S.Valuation, InputsAgree, Fitting, LitsFit, ArmsOf,
      NeverByZero, Worths, S.Taken, LitsTaken, OkOperand, OkWord, Divisor, Operand, Divisible, DivisorOk;
    forall s: Assignment, inp: S.Inputs |
      Meets(p, c, s) && InputsAgree(p, syms, inputs, s, inp) && DivisorOk(syms, |nums|, inp)
      ensures Completes(p, c, d, s)
    {
      DivisorAllows(p, c, syms, nums, arms, s, inp);
    }
  }

  /** A divisor that is as it must be lets the division be made. */
  lemma DivisorAllows(p: Prime, c: Circuit, syms: seq<S.Sym>, nums: seq<Num>, arms: seq<Arm>, s: Assignment,
                      inp: S.Inputs)
    requires p > Pow2(253) && Indexed(c) && 0 < |nums| < |syms| && DivisionAt(syms, |nums|) && OkWire(syms, |nums|)
    requires Meets(p, c, s) && Worths(p, syms, nums, s, inp) && DivisorOk(syms, |nums|, inp)
    requires var def := syms[|nums|].def;
      && LitsFit(p, c, nums, def.guards) && ArmsOf(nums, def.guards, arms)
      && def.b.s < |nums| && OkOperand(def.b, |nums|)
      && NumVal(p, Divisor(nums, def.b), s) == NumVal(p, Operand(nums, def.b), s)
    ensures Divisible(p, arms, Divisor(nums, syms[|nums|].def.b), s)
  {
    var def := syms[|nums|].def;
    hide Indexed, Meets, AllTaken, NumVal, S.Valuation, LitsFit, ArmsOf, Worths, S.Taken, LitsTaken, OkOperand, OkWord,
      Divisor, Operand;
    ArmsTaken(p, c, nums, def.guards, arms, s);
    GuardsTaken(p, syms, nums, def.guards, s, inp);
    OperandVal(p, syms, nums, def.b, s, inp);
  }

  lemma DivForced(p: Prime, c: Circuit, d: Circuit, syms: seq<S.Sym>, inputs: map<nat, Num>, nums: seq<Num>,
                  arms: seq<Arm>, r: Num)
    requires p > Pow2(253) && Indexed(c) && Indexed(d) && Table(syms) && 0 < |nums| < |syms|
    requires Forced(p, c, syms, inputs, nums) && DivisionAt(syms, |nums|) && OkWire(syms, |nums|)
    requires var def := syms[|nums|].def;
      && LitsFit(p, c, nums, def.guards) && ArmsOf(nums, def.guards, arms) && def.a.s < |nums| && def.b.s < |nums|
      && OkNum(p, c, Operand(nums, def.a), 32) && OkNum(p, c, Operand(nums, def.b), 32)
      && PinnedDiv(p, c, d, arms, Divisor(nums, def.b))
      && Answers(p, d, Plain(def.o), 32, Operand(nums, def.a), Divisor(nums, def.b), arms, r)
    ensures Forced(p, d, syms, inputs, nums + [r])
  {
    var def := syms[|nums|].def;
    var (x, y) := (Operand(nums, def.a), Divisor(nums, def.b));
    DivisorFits(p, c, nums, def.b);
    assert Forces(p, c, d) by { hide Forces, Divisible, Completes; }
    ForcesTightens(p, c, d);
    hide PinnedDiv;
    assert OkNum(p, d, x, 32) && OkNum(p, d, y, 32) by {
      NumStays(p, c, d, x, 32);
      NumStays(p, c, d, y, 32);
    }
    DivisorGates(nums, def);
    AnswerOk(p, d, Plain(def.o), x, y, arms, r);
    hide Indexed, Meets, S.Valuation, AllTaken, WordVal, S.BinVal, Pow2, Table, InputsAgree, Answers, OkNum, Forced,
      Forces, NumVal, OkWord, OkOperand, ArmsOf, LitsFit, S.Taken, LitsTaken, Gates;
    forall s: Assignment, inp: S.Inputs | Meets(p, d, s) && Worths(p, syms, nums, s, inp)
      ensures NumVal(p, r, s) == S.Valuation(syms, inp)[|nums|] && DivisorOk(syms, |nums|, inp)
    {
      ForcedMeets(p, c, d, s);
      ArmsTaken(p, c, nums, def.guards, arms, s);
      DivAt(p, d, syms, nums, arms, r, s, inp);
    }
    Join(p, c, d, syms, inputs, nums, r);
  }

  lemma DivisorGates(nums: seq<Num>, def: S.Def)
    requires def.DivOf? && def.b.s < |nums| && Divides(def.o) && !IsPow2(def.b)
    ensures Gates(Plain(def.o), Divisor(nums, def.b))
  {
  }

  /** At a solution of the right worth, a gated division is worth what its definition says. */
  lemma DivAt(p: Prime, d: Circuit, syms: seq<S.Sym>, nums: seq<Num>, arms: seq<Arm>, r: Num, s: Assignment,
              inp: S.Inputs)
    requires Indexed(d) && Table(syms) && 0 < |nums| < |syms| && DivisionAt(syms, |nums|) && OkWire(syms, |nums|)
    requires Meets(p, d, s) && Worths(p, syms, nums, s, inp)
    requires var def := syms[|nums|].def;
      && def.a.s < |nums| && def.b.s < |nums|
      && OkNum(p, d, Operand(nums, def.a), 32) && OkNum(p, d, Divisor(nums, def.b), 32)
      && NumVal(p, Divisor(nums, def.b), s) == NumVal(p, Operand(nums, def.b), s)
      && Gates(Plain(def.o), Divisor(nums, def.b))
      && Answers(p, d, Plain(def.o), 32, Operand(nums, def.a), Divisor(nums, def.b), arms, r)
      && (AllTaken(p, arms, s) <==> LitsTaken(p, nums, def.guards, s))
    ensures NumVal(p, r, s) == S.Valuation(syms, inp)[|nums|] && DivisorOk(syms, |nums|, inp)
  {
    var def := syms[|nums|].def;
    hide Indexed, Meets, S.Valuation, AllTaken, S.BinVal, Table, Answers, OkNum, NumVal, S.Taken, LitsTaken, Gates,
      Divisor, Operand;
    AnswerAt(p, d, def.o, Operand(nums, def.a), Divisor(nums, def.b), arms, r, s);
    GuardsTaken(p, syms, nums, def.guards, s, inp);
    OperandVal(p, syms, nums, def.a, s, inp);
    OperandVal(p, syms, nums, def.b, s, inp);
    WireWorth(syms, inp, |nums|);
  }

  // ----- a whole table -----

  lemma NothingForced(p: Prime, c: Circuit, syms: seq<S.Sym>, inputs: map<nat, Num>)
    requires Indexed(c) && |syms| > 0
    ensures Forced(p, c, syms, inputs, [Known(0)])
  {
  }

  lemma InputsStay(p: Prime, c: Circuit, d: Circuit, syms: seq<S.Sym>, inputs: map<nat, Num>, i: nat)
    requires Indexed(c) && Indexed(d) && PinnedSym(p, c, d, syms, inputs, i) && OkInputs(p, c, syms, inputs)
    ensures OkInputs(p, d, syms, inputs)
  {
    hide Indexed, Meets, InputsAgree, DivisorOk;
    ForcesTightens(p, c, d);
    hide Forces, Tightens, OkNum;
    forall i | 1 <= i < |syms| && IsInput(syms, i)
      ensures i in inputs && OkNum(p, d, inputs[i], syms[i].width)
    {
      NumStays(p, c, d, inputs[i], syms[i].width);
    }
  }

  /**
   * Lower a whole table: the rows then force every symbol's worth, and every solution of before extends to one whose
   * inputs let the divisors be. `None` only where those of no solution do.
   */
  method LowerTable(ints: Integers, syms: seq<S.Sym>, inputs: map<nat, Num>) returns (r: Option<seq<Num>>)
    requires ints.Valid() && ints.arms == [] && Table(syms) && OkInputs(ints.b.p, ints.b.Snap(), syms, inputs)
    modifies ints, ints.b
    ensures ints.Valid() && ints.arms == []
    ensures PinnedTable(ints.b.p, old(ints.b.Snap()), ints.b.Snap(), syms, inputs, |syms|)
    ensures r.Some? ==> |r.value| == |syms| && Forced(ints.b.p, ints.b.Snap(), syms, inputs, r.value)
    ensures r.None? ==> Hopeless(ints.b.p, old(ints.b.Snap()), syms, inputs)
  {
    assert |syms| > 0;
    hide Indexed, Meets, Forced, OkInputs, OkWire, Table, PinnedSym, PinnedTable, Hopeless, Unsolvable;
    ghost var (p, c) := (ints.b.p, ints.b.Snap());
    var nums: seq<Num> := [Known(0)];
    NothingForced(p, c, syms, inputs);
    PinnedTableSelf(p, c, syms, inputs, 1);
    while |nums| < |syms|
      invariant ints.Valid() && ints.arms == [] && 0 < |nums| <= |syms|
      invariant PinnedTable(p, c, ints.b.Snap(), syms, inputs, |nums|)
      invariant Forced(p, ints.b.Snap(), syms, inputs, nums) && OkInputs(p, ints.b.Snap(), syms, inputs)
      decreases |syms| - |nums|
    {
      ghost var d := ints.b.Snap();
      var n := LowerSym(ints, syms, inputs, nums);
      InputsStay(p, d, ints.b.Snap(), syms, inputs, |nums|);
      PinnedTableTrans(p, c, d, ints.b.Snap(), syms, inputs, |nums|);
      if n.None? {
        HopelessBefore(p, c, d, syms, inputs, |nums|);
        PinnedTableMore(p, c, ints.b.Snap(), syms, inputs, |nums| + 1);
        return None;
      }
      nums := nums + [n.value];
    }
    r := Some(nums);
  }

  lemma PinnedTableMore(p: Prime, c: Circuit, d: Circuit, syms: seq<S.Sym>, inputs: map<nat, Num>, n: nat)
    requires Indexed(c) && Indexed(d) && PinnedTable(p, c, d, syms, inputs, n) && n <= |syms|
    ensures PinnedTable(p, c, d, syms, inputs, |syms|)
  {
    hide Indexed, Meets, InputsAgree, DivisorOk, Forces, Completes;
    assert forall inp: S.Inputs :: NeverByZero(syms, |syms|, inp) ==> NeverByZero(syms, n, inp);
  }

  // ----- index forms -----

  /** Every input is some solution's. */
  ghost predicate Realised(p: Prime, c: Circuit, syms: seq<S.Sym>, inputs: map<nat, Num>)
    requires Indexed(c)
  {
    forall inp :: RealisedBy(p, c, syms, inputs, inp)
  }

  ghost predicate RealisedBy(p: Prime, c: Circuit, syms: seq<S.Sym>, inputs: map<nat, Num>, inp: S.Inputs)
    requires Indexed(c)
  {
    exists s: Assignment :: Meets(p, c, s) && InputsAgree(p, syms, inputs, s, inp)
  }

  /** The base and offsets that `IndexForm` lists for a wire describe it to the machine, the index being the wire less
      the base. */
  lemma RangesAreForm(p: Prime, c: Circuit, syms: seq<S.Sym>, inputs: map<nat, Num>, nums: seq<Num>, i: nat, k: nat,
                      base: nat, offsets: seq<nat>)
    requires Indexed(c) && Table(syms) && |nums| == |syms| && Forced(p, c, syms, inputs, nums)
      && Realised(p, c, syms, inputs)
    requires 0 < i < k < |syms| && nums[i].Wire? && X.Ranges(p, c, nums[i].lc, base, offsets)
    requires base < S.U32 && syms[k] == S.Sym.Wire(32, S.BinOf(S.Sub, S.V(0, i), S.C(base)))
    ensures P.IsForm(syms, S.V(0, i), P.Form(base, offsets, S.V(0, k)))
  {
    hide Indexed, Meets, InputsAgree, S.Valuation, X.Ranges, OkNum;
    TableOk(syms);
    S.TwoTo32();
    forall inp
      ensures var vals := S.Valuation(syms, inp);
        vals[i] == (base + vals[k]) % S.U32 && vals[k] in offsets
    {
      assert RealisedBy(p, c, syms, inputs, inp);
      var s :| Meets(p, c, s) && InputsAgree(p, syms, inputs, s, inp);
      RangesAt(p, c, syms, inputs, nums, i, k, base, offsets, s, inp);
    }
  }

  lemma RangesAt(p: Prime, c: Circuit, syms: seq<S.Sym>, inputs: map<nat, Num>, nums: seq<Num>, i: nat, k: nat,
                 base: nat, offsets: seq<nat>, s: Assignment, inp: S.Inputs)
    requires Indexed(c) && Table(syms) && |nums| == |syms| && Forced(p, c, syms, inputs, nums)
    requires Meets(p, c, s) && InputsAgree(p, syms, inputs, s, inp)
    requires 0 < i < k < |syms| && nums[i].Wire? && X.Ranges(p, c, nums[i].lc, base, offsets)
    requires base < S.U32 && syms[k] == S.Sym.Wire(32, S.BinOf(S.Sub, S.V(0, i), S.C(base)))
    ensures var vals := S.Valuation(syms, inp);
      vals[i] == (base + vals[k]) % S.U32 && vals[k] in offsets
  {
    var (vals, v) := (S.Valuation(syms, inp), Value(p, nums[i].lc, s));
    WireWorth(syms, inp, k);
    IndexNum(p, c, syms, inputs, nums, i, k);
    hide Indexed, Meets, InputsAgree, S.Valuation, Value, Table, AllTaken;
    NumBelow(p, c, nums[i], s);
    S.TwoTo32();
    assert Worths(p, syms, nums, s, inp);
    assert vals[i] == v && v >= base && v - base in offsets;
    ModSmall(v - base, S.U32);
    ModSmall(v, S.U32);
  }

  lemma IndexNum(p: Prime, c: Circuit, syms: seq<S.Sym>, inputs: map<nat, Num>, nums: seq<Num>, i: nat, k: nat)
    requires Indexed(c) && Table(syms) && |nums| == |syms| && Forced(p, c, syms, inputs, nums) && 0 < i < k < |syms|
    requires syms[k].Wire? && syms[k].def.BinOf? && syms[k].def.a == S.V(0, i)
    ensures OkNum(p, c, nums[i], 32)
  {
    assert OkWire(syms, k);
    hide Meets, Indexed, OkNum, InputsAgree, Worths, Table;
    NumWider(p, c, nums[i], SymWidth(syms, i), 32);
  }

  lemma NoArms(p: Prime, s: Assignment)
    ensures AllTaken(p, [], s)
  {
  }
}
