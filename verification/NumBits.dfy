/** Bitwise operations on integers as constraints. */
module NumBits {
  import opened Words
  import opened Fields
  import opened Linear
  import opened Circuits
  import opened Bits
  import opened Builder
  import opened Intervals
  import opened Recompose
  import opened WordOps
  import opened Nums
  import S = SymValues

  // ----- bitwise operations -----

  /** `r` is the bit `o` makes of the bits `x` and `y`. */
  ghost predicate GateValue(p: Prime, c: Circuit, o: S.Bin, x: Lc, y: Lc, r: Lc)
    requires Indexed(c)
  {
    forall s: Assignment :: Meets(p, c, s) ==> Value(p, r, s) == BitFn(o, Value(p, x, s), Value(p, y, s))
  }

  lemma GateStays(p: Prime, c: Circuit, d: Circuit, o: S.Bin, x: Lc, y: Lc, r: Lc)
    requires Indexed(c) && Indexed(d) && Tightens(p, c, d) && GateValue(p, c, o, x, y, r)
    ensures GateValue(p, d, o, x, y, r)
  {
    hide Indexed, Meets, Value, BitFn;
  }

  lemma BitStays(p: Prime, c: Circuit, d: Circuit, x: Lc)
    requires Indexed(c) && Indexed(d) && Tightens(p, c, d) && IsBit(p, c, x)
    ensures IsBit(p, d, x)
  {
    hide Indexed, Meets, Value;
  }

  lemma DecomposedStays(p: Prime, c: Circuit, d: Circuit, x: Lc, bits: seq<Lc>)
    requires Indexed(c) && Indexed(d) && Tightens(p, c, d) && Decomposed(p, c, x, bits)
    ensures Decomposed(p, d, x, bits)
  {
    hide Indexed, Meets, Value, AreBitsOf;
  }

  lemma DecomposedBitsAre(p: Prime, c: Circuit, x: Lc, bits: seq<Lc>)
    requires Indexed(c) && Decomposed(p, c, x, bits)
    ensures forall i :: 0 <= i < |bits| ==> IsBit(p, c, bits[i])
  {
    hide Indexed, Meets, Value;
    forall i, s: Assignment | 0 <= i < |bits| && Meets(p, c, s)
      ensures Value(p, bits[i], s) <= 1
    {
      assert AreBitsOf(p, bits, Value(p, x, s), s);
    }
  }

  lemma RangeWidens(p: Prime, c: Circuit, x: Lc, w: nat, n: nat)
    requires Indexed(c) && InRange(p, c, x, w) && w <= n
    ensures InRange(p, c, x, n)
  {
    hide Indexed, Meets, Value, Pow2;
    Pow2Mono(w, n);
  }

  lemma FoldedGate(p: Prime, c: Circuit, o: S.Bin, x: Lc, y: Lc, r: Lc)
    requires Indexed(c) && IsBit(p, c, x) && IsBit(p, c, y)
    requires IsConst(x) ==> x.constant == 0 || x.constant == 1
    requires IsConst(y) ==> y.constant == 0 || y.constant == 1
    requires IsConst(x) || IsConst(y)
    requires r == if o.And? then
        if (IsConst(x) && x.constant == 0) || (IsConst(y) && y.constant == 0) then Const(0) else if IsConst(x) then y
          else x
      else if o.Or? then
        if IsConst(x) && x.constant == 0 then y else if IsConst(y) && y.constant == 0 then x else Const(1)
      else if IsConst(x) && x.constant == 0 then y else if IsConst(y) && y.constant == 0 then x
      else if IsConst(x) then Sub(Const(1), y) else Sub(Const(1), x)
    ensures GateValue(p, c, o, x, y, r)
  {
    hide Indexed, Meets, Eval, IsPrime;
    ModSmall(1, p);
    forall s: Assignment | Meets(p, c, s)
      ensures Value(p, r, s) == BitFn(o, Value(p, x, s), Value(p, y, s))
    {
      if IsConst(x) {
        ConstEval(x, s);
      }
      if IsConst(y) {
        ConstEval(y, s);
      }
      OneMinusBit(p, Eval(x, s));
      OneMinusBit(p, Eval(y, s));
    }
  }

  lemma EmittedGate(p: Prime, c: Circuit, o: S.Bin, x: Lc, y: Lc, v: nat)
    requires Indexed(c) && IsBit(p, c, x) && IsBit(p, c, y)
    requires forall s: Assignment :: Meets(p, c, s) ==>
               if o.And? then Cong(p, s(v), Eval(x, s) * Eval(y, s))
               else AsHinted(p, if o.Or? then Or(v, x, y) else Xor(v, x, y), s)
    ensures GateValue(p, c, o, x, y, Var(v))
  {
    hide Indexed, Meets, Eval, IsPrime;
    forall s: Assignment | Meets(p, c, s)
      ensures Value(p, Var(v), s) == BitFn(o, Value(p, x, s), Value(p, y, s))
    {
      var (a, e) := (Value(p, x, s), Value(p, y, s));
      BitValues(p, x, y, s);
      if o.And? {
        CongMod(p, Eval(x, s));
        CongMod(p, Eval(y, s));
        CongMul(p, Eval(x, s), a, Eval(y, s), e);
        assert a * e == if a == 0 then 0 else e;
        ModSmall(a * e, p);
      } else if o.Or? {
        CongBit(p, s(v), Eval(x, s) + Eval(y, s) - Eval(x, s) * Eval(y, s), if a + e > 0 then 1 else 0);
      } else {
        CongBit(p, s(v), Eval(x, s) + Eval(y, s) - 2 * Eval(x, s) * Eval(y, s), if a == e then 0 else 1);
      }
    }
  }

  lemma DisjointForm(p: Prime, c: Circuit, f: Facts, o: S.Bin, x: Num, y: Num, reg: nat, w: nat, n: nat)
    requires p > Pow2(253) && Indexed(c) && OkFacts(p, c, f) && Ending(f) && n == c.next && (o.Or? || o.Xor?)
    requires OkNum(p, c, x, reg) && OkNum(p, c, y, reg) && (reg == 32 || reg == 64)
    requires Below(LcOf(x), n) && Below(LcOf(y), n) && Disjoint(f, LcOf(x), LcOf(y), n)
    requires w == if WidthOf(x) > WidthOf(y) then WidthOf(x) else WidthOf(y)
    ensures var lc := Add(LcOf(x), LcOf(y)); InRange(p, c, lc, w) && w <= reg && Exact(p, c, Plain(o), reg, x, y, lc)
  {
    hide Indexed, Meets, Value, Pow2, IsPrime, OkNum, NumVal, Disjoint, OkFacts, Ending;
    NumParts(p, c, x, reg);
    NumParts(p, c, y, reg);
    var lc := Add(LcOf(x), LcOf(y));
    forall s: Assignment | Meets(p, c, s)
      ensures Value(p, lc, s) == WordVal(Plain(o), reg, NumVal(p, x, s), NumVal(p, y, s)) < Pow2(w)
    {
      BothInRange(p, c, x, y, reg, s);
      var (u, v) := (NumVal(p, x, s), NumVal(p, y, s));
      DisjointSound(p, c, f, LcOf(x), LcOf(y), n, o, reg, s);
      Pow2Mono(WidthOf(x), w);
      Pow2Mono(WidthOf(y), w);
      BitwiseNarrow(o, u, v, w, reg);
      Wide(p, w);
      SumValue(p, LcOf(x), LcOf(y), s);
    }
    RangeExact(p, c, Plain(o), reg, x, y, lc, w);
  }

  /** An exact value within the register is its own low bits. */
  lemma RangeExact(p: Prime, c: Circuit, op: IntOp, reg: nat, x: Num, y: Num, lc: Lc, w: nat)
    requires Indexed(c) && 0 < reg && w <= reg
    requires forall s: Assignment :: Meets(p, c, s) ==>
               Value(p, lc, s) == WordVal(op, reg, NumVal(p, x, s), NumVal(p, y, s)) < Pow2(w)
    ensures InRange(p, c, lc, w) && Exact(p, c, op, reg, x, y, lc)
  {
    hide Indexed, Meets, Value, Pow2, IsPrime, NumVal, WordVal;
    Pow2Mono(w, reg);
    forall s: Assignment | Meets(p, c, s)
      ensures Value(p, lc, s) % Pow2(reg) == WordVal(op, reg, NumVal(p, x, s), NumVal(p, y, s))
    {
      ModSmall(Value(p, lc, s), Pow2(reg));
    }
  }

  lemma MaskForm(p: Prime, c: Circuit, f: Facts, x: Num, y: Num, v: Num, reg: nat, k: nat, w: nat, n: nat, low: Lc)
    requires p > Pow2(253) && Indexed(c) && OkFacts(p, c, f) && Ending(f) && n == c.next
    requires OkNum(p, c, x, reg) && OkNum(p, c, y, reg) && (reg == 32 || reg == 64)
    requires (y.Known? && v == x && y.k + 1 == Pow2(k)) || (x.Known? && v == y && x.k + 1 == Pow2(k))
    requires Below(LcOf(v), n) && SplitLc(f, LcOf(v), k, n).Some? && SplitLc(f, LcOf(v), k, n).value.0 == low
    requires w == if k < WidthOf(v) then k else WidthOf(v)
    ensures Below(low, n) && InRange(p, c, low, w) && w <= reg && Exact(p, c, Plain(S.And), reg, x, y, low)
  {
    hide Indexed, Meets, Value, Pow2, IsPrime, OkNum, SplitLc, OkFacts, Ending;
    NumParts(p, c, v, reg);
    SplitBelowNext(f, LcOf(v), k, n);
    forall s: Assignment | Meets(p, c, s)
      ensures Value(p, low, s) == WordVal(Plain(S.And), reg, NumVal(p, x, s), NumVal(p, y, s)) < Pow2(w)
    {
      BothInRange(p, c, x, y, reg, s);
      SplitLcSound(p, c, f, LcOf(v), k, n, s);
      AndMask(NumVal(p, v, s), k, reg);
      LowerBound(NumVal(p, v, s), Pow2(k));
    }
    RangeExact(p, c, Plain(S.And), reg, x, y, low, w);
  }

  lemma LowerBound(x: nat, w: nat)
    requires w > 0
    ensures x % w < w && x % w <= x
  {
    var q := x / w;
    assert q * w >= 0;
  }

  lemma BitwiseForm(p: Prime, c: Circuit, o: S.Bin, x: Num, y: Num, reg: nat, w: nat, n: nat, xs: seq<Lc>, ys: seq<Lc>,
                    rs: seq<Lc>)
    requires p > Pow2(253) && Indexed(c) && (reg == 32 || reg == 64) && OkNum(p, c, x, reg) && OkNum(p, c, y, reg)
    requires (o.And? || o.Or? || o.Xor?) && w == if WidthOf(x) > WidthOf(y) then WidthOf(x) else WidthOf(y)
    requires n == if o.And? then (if WidthOf(x) < WidthOf(y) then WidthOf(x) else WidthOf(y)) else w
    requires |xs| == |ys| == |rs| == w && Decomposed(p, c, LcOf(x), xs) && Decomposed(p, c, LcOf(y), ys)
    requires forall i :: 0 <= i < w ==> GateValue(p, c, o, xs[i], ys[i], rs[i])
    ensures InRange(p, c, Recomposed(rs), n) && n <= reg && Exact(p, c, Plain(o), reg, x, y, Recomposed(rs))
  {
    hide Indexed, Meets, Value, Pow2, IsPrime, OkNum, NumVal, BitFn, Recomposed;
    NumParts(p, c, x, reg);
    NumParts(p, c, y, reg);
    forall s: Assignment | Meets(p, c, s)
      ensures Value(p, Recomposed(rs), s) == WordVal(Plain(o), reg, NumVal(p, x, s), NumVal(p, y, s)) < Pow2(n)
    {
      BothInRange(p, c, x, y, reg, s);
      var (u, v) := (NumVal(p, x, s), NumVal(p, y, s));
      assert AreBitsOf(p, xs, u, s) && AreBitsOf(p, ys, v, s);
      GatesSpell(p, c, o, u, v, xs, ys, rs, s);
      Pow2Mono(WidthOf(x), w);
      Pow2Mono(WidthOf(y), w);
      BitwiseNarrow(o, u, v, w, reg);
      if o.And? {
        AndBelow(u, v, reg, n);
      }
    }
    RangeExact(p, c, Plain(o), reg, x, y, Recomposed(rs), n);
  }

  lemma GatesSpell(p: Prime, c: Circuit, o: S.Bin, u: nat, v: nat, xs: seq<Lc>, ys: seq<Lc>, rs: seq<Lc>, s: Assignment)
    requires p > Pow2(253) && Indexed(c) && Meets(p, c, s) && |xs| == |ys| == |rs| <= 253
    requires AreBitsOf(p, xs, u, s) && AreBitsOf(p, ys, v, s)
    requires forall i :: 0 <= i < |rs| ==> GateValue(p, c, o, xs[i], ys[i], rs[i])
    ensures Value(p, Recomposed(rs), s) == S.BitOp(o, u, v, |rs|)
  {
    hide Indexed, Meets, Value, Pow2, IsPrime, Recomposed;
    var values := ValuesOf(p, rs, s);
    forall i | 0 <= i < |rs|
      ensures values[i] == BitFn(o, BitOf(u, i), BitOf(v, i)) && Value(p, rs[i], s) <= 1
    {
      assert GateValue(p, c, o, xs[i], ys[i], rs[i]);
    }
    Pow2Mono(|rs|, 253);
    RecomposedValue(p, rs, s);
    BitwiseSum(o, u, v, values);
  }
}
