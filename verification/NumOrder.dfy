/** Comparisons, and signed order as unsigned order of flipped values. */
module NumOrder {
  import opened Words
  import opened Fields
  import opened Linear
  import opened Circuits
  import opened Bits
  import opened Builder
  import opened Intervals
  import opened WordOps
  import opened Nums
  import opened NumShifts
  import opened NumPowers
  import S = SymValues

  // ----- comparisons -----

  /** `r` is `x` with its sign bit flipped. */
  ghost predicate Flips(p: Prime, c: Circuit, x: Lc, reg: nat, r: Lc)
    requires Indexed(c) && reg > 0
  {
    forall s: Assignment :: Meets(p, c, s) ==> Value(p, r, s) == Flip(reg, Value(p, x, s))
  }

  lemma TightensSelf(p: Prime, c: Circuit)
    requires Indexed(c)
    ensures Tightens(p, c, c)
  {
  }

  lemma HalfValue(p: Prime, reg: nat, s: Assignment)
    requires p > Pow2(253) && 0 < reg <= 64
    ensures Value(p, Const(Pow2(reg - 1)), s) == Pow2(reg - 1)
  {
    hide Pow2, IsPrime;
    Pow2Mono(reg - 1, 253);
    ModSmall(Pow2(reg - 1), p);
  }

  lemma HalfInRange(p: Prime, c: Circuit, reg: nat)
    requires p > Pow2(253) && 0 < reg <= 64 && Indexed(c)
    ensures InRange(p, c, Const(Pow2(reg - 1)), reg)
  {
    hide Meets, Pow2, IsPrime, Value;
    PowDouble(reg - 1);
    forall s: Assignment | Meets(p, c, s)
      ensures Value(p, Const(Pow2(reg - 1)), s) < Pow2(reg)
    {
      HalfValue(p, reg, s);
    }
  }

  lemma FlipConst(p: Prime, c: Circuit, x: Lc, reg: nat, r: Lc)
    requires p > Pow2(253) && 0 < reg <= 64 && Indexed(c) && IsConst(x)
    requires r == Const((x.constant % p + Pow2(reg - 1)) % Pow2(reg))
    ensures Flips(p, c, x, reg, r)
  {
    hide Meets, Pow2, IsPrime;
    forall s: Assignment
      ensures Value(p, r, s) == Flip(reg, Value(p, x, s))
    {
      ConstEval(x, s);
      var v := (x.constant % p + Pow2(reg - 1)) % Pow2(reg);
      ModBelow(x.constant % p + Pow2(reg - 1), Pow2(reg));
      Pow2Mono(reg, 253);
      ModSmall(v, p);
    }
  }

  /** Adding half and taking away the register's size where the top bit `t` is set. */
  lemma FlipSum(p: Prime, x: Lc, t: Lc, reg: nat, s: Assignment)
    requires p > Pow2(253) && 0 < reg <= 64 && Value(p, x, s) < Pow2(reg)
    requires Value(p, t, s) == if 2 * Value(p, x, s) >= Pow2(reg) then 1 else 0
    ensures Value(p, Sub(Add(x, Const(Pow2(reg - 1))), Scale(t, Pow2(reg))), s) == Flip(reg, Value(p, x, s))
  {
    hide IsPrime, Eval, Pow2, Flip;
    var v := Value(p, x, s);
    FlipValue(v, reg);
    Wide(p, reg);
    FlipCong(p, Eval(x, s), v, Eval(t, s), Value(p, t, s), Pow2(reg - 1), Pow2(reg));
    ModSmall(Flip(reg, v), p);
  }

  lemma FlipCong(p: Prime, x: int, v: nat, e: int, t: nat, h: nat, w: nat)
    requires v == x % p && t == e % p && t <= 1
    ensures Cong(p, x + h - w * e, v + h - (if t == 1 then w else 0))
  {
    CongMod(p, x);
    CongMod(p, e);
    CongMul(p, w, w, e, t);
    CongAdd(p, x, v, h, h);
    CongAdd(p, x + h, v + h, w * e, w * t);
    assert w * t == if t == 1 then w else 0;
  }

  lemma FlipTop(p: Prime, c: Circuit, x: Lc, reg: nat, bits: seq<Lc>, r: Lc)
    requires p > Pow2(253) && 0 < reg <= 64 && Indexed(c) && InRange(p, c, x, reg) && |bits| == reg
      && Decomposed(p, c, x, bits)
    requires r == Sub(Add(x, Const(Pow2(reg - 1))), Scale(bits[reg - 1], Pow2(reg)))
    ensures Flips(p, c, x, reg, r)
  {
    hide Meets, Pow2, IsPrime, Value, Eval, AreBitsOf;
    forall s: Assignment | Meets(p, c, s)
      ensures Value(p, r, s) == Flip(reg, Value(p, x, s))
    {
      BitAtIndex(p, bits, Value(p, x, s), s, reg - 1);
      SignBit(Value(p, x, s), reg);
      FlipSum(p, x, bits[reg - 1], reg, s);
    }
  }

  lemma FlipLess(p: Prime, c: Circuit, d: Circuit, x: Lc, reg: nat, lt: Lc, r: Lc)
    requires p > Pow2(253) && 0 < reg <= 64 && Indexed(c) && Indexed(d) && Tightens(p, c, d) && InRange(p, c, x, reg)
    requires forall s: Assignment :: Meets(p, d, s) ==>
      Value(p, lt, s) <= 1 && (Value(p, lt, s) == 1 <==> Value(p, x, s) < Pow2(reg - 1))
    requires r == Sub(Add(x, Const(Pow2(reg - 1))), Scale(Sub(Const(1), lt), Pow2(reg)))
    ensures Flips(p, d, x, reg, r)
  {
    hide Meets, Pow2, IsPrime, Value, Eval;
    PowDouble(reg - 1);
    forall s: Assignment | Meets(p, d, s)
      ensures Value(p, r, s) == Flip(reg, Value(p, x, s))
    {
      assert Meets(p, c, s);
      NotValue(p, lt, 0, s);
      FlipSum(p, x, Sub(Const(1), lt), reg, s);
    }
  }

  lemma FlipsStay(p: Prime, c: Circuit, d: Circuit, x: Lc, reg: nat, r: Lc)
    requires Indexed(c) && Indexed(d) && Pinned(p, c, d) && reg > 0 && Flips(p, c, x, reg, r)
    ensures Flips(p, d, x, reg, r)
  {
    hide Meets, Pow2, IsPrime, Value, Indexed, Flip;
    PinnedTightens(p, c, d);
  }

  lemma FlipsRange(p: Prime, c: Circuit, x: Lc, reg: nat, r: Lc)
    requires Indexed(c) && reg > 0 && Flips(p, c, x, reg, r)
    ensures InRange(p, c, r, reg)
  {
    hide Meets, Pow2, IsPrime, Value;
    forall s: Assignment | Meets(p, c, s)
      ensures Value(p, r, s) < Pow2(reg)
    {
      ModBelow(Value(p, x, s) + Pow2(reg - 1), Pow2(reg));
    }
  }

  /** `lt` is the bit `x < y`. */
  ghost predicate Tells(p: Prime, c: Circuit, x: Lc, y: Lc, lt: Lc)
    requires Indexed(c)
  {
    forall s: Assignment :: Meets(p, c, s) ==> Value(p, lt, s) == if Value(p, x, s) < Value(p, y, s) then 1 else 0
  }

  lemma ComparedBit(p: Prime, c: Circuit, d: Circuit, x: Lc, y: Lc, n: nat, lt: Lc, s: Assignment)
    requires Indexed(c) && Indexed(d) && Tightens(p, c, d) && InRange(p, c, x, n) && InRange(p, c, y, n)
    requires forall t: Assignment :: Comparable(p, None, n, x, y, t) && Meets(p, d, t) ==>
               Value(p, lt, t) == if Live(p, None, t) && Value(p, x, t) >= Value(p, y, t) then 0 else 1
    ensures Meets(p, d, s) ==> Value(p, lt, s) == if Value(p, x, s) < Value(p, y, s) then 1 else 0
  {
    hide Indexed, Meets, Value, Pow2;
    if Meets(p, d, s) {
      assert Meets(p, c, s);
      assert Comparable(p, None, n, x, y, s) && Live(p, None, s);
    }
  }

  /** `r` is the comparison's truth, 1 or 0. */
  ghost predicate Compares(p: Prime, c: Circuit, o: S.Cmp, reg: nat, x: Num, y: Num, r: Num)
    requires Indexed(c) && reg > 0
  {
    && OkNum(p, c, r, 1)
    && forall s: Assignment :: Meets(p, c, s) ==>
         NumVal(p, r, s) == if WordCmp(o, reg, NumVal(p, x, s), NumVal(p, y, s)) then 1 else 0
  }

  ghost predicate IsCmp(p: Prime, c: Circuit, o: S.Cmp, reg: nat, x: Num, y: Num, lc: Lc)
    requires Indexed(c) && reg > 0
  {
    forall s: Assignment :: Meets(p, c, s) ==>
      Value(p, lc, s) == if WordCmp(o, reg, NumVal(p, x, s), NumVal(p, y, s)) then 1 else 0
  }

  lemma ComparesBit(p: Prime, c: Circuit, o: S.Cmp, reg: nat, x: Num, y: Num, lc: Lc)
    requires Indexed(c) && reg > 0 && Below(lc, c.next) && IsCmp(p, c, o, reg, x, y, lc)
    ensures InRange(p, c, lc, 1) && Compares(p, c, o, reg, x, y, Wire(lc, 1))
  {
    hide Indexed, Meets, Value, WordCmp;
    assert Pow2(1) == 2;
  }

  lemma DecidedCompares(p: Prime, c: Circuit, f: Facts, o: S.Cmp, reg: nat, x: Num, y: Num, n: nat)
    requires p > Pow2(253) && Indexed(c) && OkFacts(p, c, f) && Ending(f) && reg > 0
    requires Below(LcOf(x), n) && Below(LcOf(y), n) && DecidedCmp(f, o, LcOf(x), LcOf(y), n).Some?
    requires forall s: Assignment :: NumVal(p, x, s) == Value(p, LcOf(x), s) && NumVal(p, y, s) == Value(p, LcOf(y), s)
    ensures Compares(p, c, o, reg, x, y, Known(if DecidedCmp(f, o, LcOf(x), LcOf(y), n).value then 1 else 0))
  {
    hide Indexed, Meets, Value, IsPrime, OkFacts, Ending, LcMax, NumVal, WordCmp, DecidedCmp;
    assert Pow2(1) == 2;
    KnownValue(p, Known(if DecidedCmp(f, o, LcOf(x), LcOf(y), n).value then 1 else 0));
    forall s: Assignment | Meets(p, c, s)
      ensures WordCmp(o, reg, NumVal(p, x, s), NumVal(p, y, s)) == DecidedCmp(f, o, LcOf(x), LcOf(y), n).value
    {
      DecidedCmpSound(p, c, f, o, LcOf(x), LcOf(y), n, s);
      DecidedUnsigned(f, o, LcOf(x), LcOf(y), n, reg, NumVal(p, x, s), NumVal(p, y, s));
    }
  }

  lemma DecidedUnsigned(f: Facts, o: S.Cmp, x: Lc, y: Lc, n: nat, reg: nat, u: nat, v: nat)
    requires Ending(f) && Below(x, n) && Below(y, n) && reg > 0 && DecidedCmp(f, o, x, y, n).Some?
    ensures WordCmp(o, reg, u, v) == S.CmpVal(o, u, v)
  {
    hide LcMax, Range, Ending, Pow2;
  }

  lemma EqualForm(p: Prime, c: Circuit, d: Circuit, o: S.Cmp, reg: nat, x: Num, y: Num, z: Lc)
    requires p > Pow2(253) && Indexed(c) && Indexed(d) && Tightens(p, c, d) && (reg == 32 || reg == 64)
      && (o.Eq? || o.Ne?)
    requires OkNum(p, c, x, reg) && OkNum(p, c, y, reg)
    requires forall s: Assignment :: Meets(p, d, s) ==>
      Value(p, z, s) == if Value(p, Sub(LcOf(x), LcOf(y)), s) == 0 then 1 else 0
    ensures IsCmp(p, d, o, reg, x, y, if o.Eq? then z else Sub(Const(1), z))
  {
    hide Indexed, Meets, Value, IsPrime, Eval, Pow2, OkNum, NumVal;
    forall s: Assignment | Meets(p, d, s)
      ensures Value(p, if o.Eq? then z else Sub(Const(1), z), s) == if WordCmp(o, reg, NumVal(p, x, s), NumVal(p, y, s))
        then 1 else 0
    {
      assert Meets(p, c, s);
      BothInRange(p, c, x, y, reg, s);
      DifferenceZero(p, LcOf(x), LcOf(y), s);
      NotValue(p, z, 0, s);
    }
  }

  lemma DifferenceZero(p: Prime, x: Lc, y: Lc, s: Assignment)
    ensures Value(p, Sub(x, y), s) == 0 <==> Value(p, x, s) == Value(p, y, s)
  {
    hide Eval, IsPrime;
    CongIff(p, Eval(x, s), Eval(y, s));
  }

  predicate Signed(o: S.Cmp) {
    o.LtS? || o.GtS? || o.LeS? || o.GeS?
  }

  predicate Swaps(o: S.Cmp) {
    o.GtU? || o.GtS? || o.LeU? || o.LeS?
  }

  predicate Negates(o: S.Cmp) {
    o.LeU? || o.LeS? || o.GeU? || o.GeS?
  }

  /** The forms whose unsigned order decides: the operands, with their sign bits flipped for a signed
      comparison of full registers. */
  ghost predicate OrderOperands(p: Prime, c: Circuit, o: S.Cmp, reg: nat, x: Num, y: Num, u: Lc, v: Lc)
    requires Indexed(c) && reg > 0
  {
    || (u == LcOf(x) && v == LcOf(y) && (Signed(o) ==> WidthOf(x) < reg && WidthOf(y) < reg))
    || (Signed(o) && Flips(p, c, LcOf(x), reg, u) && Flips(p, c, LcOf(y), reg, v))
  }

  lemma OrderForm(p: Prime, c: Circuit, e: Circuit, f: Circuit, o: S.Cmp, reg: nat, x: Num, y: Num, n: nat, u: Lc,
                  v: Lc, lt: Lc, lc: Lc)
    requires p > Pow2(253) && Indexed(c) && Indexed(e) && Indexed(f) && Tightens(p, c, e) && Tightens(p, e, f)
      && (reg == 32 || reg == 64)
    requires OkNum(p, c, x, reg) && OkNum(p, c, y, reg) && !o.Eq? && !o.Ne?
    requires OrderOperands(p, e, o, reg, x, y, u, v)
    requires if Swaps(o) then Tells(p, f, v, u, lt) else Tells(p, f, u, v, lt)
    requires lc == if Negates(o) then Sub(Const(1), lt) else lt
    ensures IsCmp(p, f, o, reg, x, y, lc)
  {
    hide Indexed, Meets, Value, IsPrime, Eval, Pow2, OkNum, NumVal;
    forall s: Assignment | Meets(p, f, s)
      ensures Value(p, lc, s) == if WordCmp(o, reg, NumVal(p, x, s), NumVal(p, y, s)) then 1 else 0
    {
      assert Meets(p, e, s) && Meets(p, c, s);
      BothInRange(p, c, x, y, reg, s);
      if Value(p, lt, s) <= 1 {
        NotValue(p, lt, 0, s);
      }
      if WidthOf(x) < reg && WidthOf(y) < reg {
        Pow2Mono(WidthOf(x), reg - 1);
        Pow2Mono(WidthOf(y), reg - 1);
        PowDouble(reg - 1);
        NarrowOrder(o, NumVal(p, x, s), NumVal(p, y, s), reg);
      }
    }
  }
}
