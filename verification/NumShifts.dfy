/** Shifts, rotations and divisions by a power of two. */
module NumShifts {
  import opened Words
  import opened Fields
  import opened Linear
  import opened Circuits
  import opened Bits
  import opened Builder
  import opened Intervals
  import opened Recompose
  import opened WordOps
  import opened Nums
  import opened NumBits
  import S = SymValues

  // ----- shifts -----

  lemma ShlForm(p: Prime, c: Circuit, x: Num, y: Num, reg: nat, k: nat)
    requires p > Pow2(253) && Indexed(c) && (reg == 32 || reg == 64) && OkNum(p, c, x, reg) && y.Known?
      && k == y.k % reg
    ensures var (lc, w) := (Scale(LcOf(x), Pow2(k)), WidthOf(x) + k);
      Below(lc, c.next) && InRange(p, c, lc, w) && w <= 128 && Exact(p, c, Plain(S.Shl), reg, x, y, lc)
  {
    hide Indexed, Meets, Value, Pow2, IsPrime, OkNum, NumVal;
    NumParts(p, c, x, reg);
    var (lc, w) := (Scale(LcOf(x), Pow2(k)), WidthOf(x) + k);
    KnownValue(p, y);
    forall s: Assignment | Meets(p, c, s)
      ensures Value(p, lc, s) == Lift(NumVal(p, x, s), k) < Pow2(w)
    {
      var v := NumVal(p, x, s);
      LiftBound(v, WidthOf(x), k);
      Wide(p, w);
      ScaleValue(p, LcOf(x), Pow2(k), s);
    }
  }

  lemma KnownValue(p: Prime, y: Num)
    requires y.Known?
    ensures forall s: Assignment :: NumVal(p, y, s) == y.k
  {
  }

  lemma LiftBound(v: nat, m: nat, k: nat)
    requires v < Pow2(m)
    ensures Pow2(k) * v == Lift(v, k) < Pow2(m + k)
  {
    Pow2Add(m, k);
    var (a, w) := (Pow2(m), Pow2(k));
    TimesMono(v, a - 1, w);
    assert (a - 1) * w == a * w - w;
  }

  /** `op` shifts right by `k` and brings in zeros. */
  ghost predicate ShiftsBy(p: Prime, c: Circuit, op: IntOp, reg: nat, x: Num, y: Num, k: nat)
    requires Indexed(c) && reg > 0
  {
    forall s: Assignment :: Meets(p, c, s) ==>
      WordVal(op, reg, NumVal(p, x, s), NumVal(p, y, s)) == Quot(NumVal(p, x, s), Pow2(k))
  }

  lemma ShiftStays(p: Prime, c: Circuit, d: Circuit, op: IntOp, reg: nat, x: Num, y: Num, k: nat)
    requires Indexed(c) && Indexed(d) && Tightens(p, c, d) && reg > 0 && ShiftsBy(p, c, op, reg, x, y, k)
    ensures ShiftsBy(p, d, op, reg, x, y, k)
  {
    hide Indexed, Meets, NumVal, WordVal, Pow2;
  }

  lemma LogicalShift(p: Prime, c: Circuit, op: IntOp, x: Num, y: Num, reg: nat, k: nat)
    requires p > Pow2(253) && Indexed(c) && (reg == 32 || reg == 64) && OkNum(p, c, x, reg) && y.Known?
      && k == y.k % reg
    requires op == Plain(S.ShrU) || (op == ShrS && WidthOf(x) < reg)
    ensures ShiftsBy(p, c, op, reg, x, y, k)
  {
    hide Indexed, Meets, Value, Pow2, IsPrime, OkNum, NumVal;
    NumParts(p, c, x, reg);
    KnownValue(p, y);
    forall s: Assignment | Meets(p, c, s)
      ensures WordVal(op, reg, NumVal(p, x, s), y.k) == Quot(NumVal(p, x, s), Pow2(k))
    {
      if op == ShrS {
        Pow2Mono(WidthOf(x), reg - 1);
        PowDouble(reg - 1);
      }
    }
  }

  lemma ShiftedOut(p: Prime, c: Circuit, op: IntOp, x: Num, y: Num, reg: nat, k: nat)
    requires p > Pow2(253) && Indexed(c) && 0 < reg <= 252 && OkNum(p, c, x, reg) && k >= WidthOf(x)
      && ShiftsBy(p, c, op, reg, x, y, k)
    ensures Computes(p, c, op, reg, x, y, Known(0))
  {
    hide Indexed, Meets, Value, Pow2, IsPrime, WordVal;
    NumParts(p, c, x, reg);
    forall s: Assignment | Meets(p, c, s)
      ensures WordVal(op, reg, NumVal(p, x, s), NumVal(p, y, s)) == 0
    {
      Pow2Mono(WidthOf(x), k);
      ModUnique(NumVal(p, x, s), Pow2(k), 0, NumVal(p, x, s));
    }
  }

  lemma QuotientBound(v: nat, w: nat, k: nat)
    requires v < Pow2(w) && k <= w
    ensures v / Pow2(k) < Pow2(w - k)
  {
    Pow2Add(k, w - k);
    QuotientBelow(v, Pow2(k), Pow2(w - k));
  }

  lemma SplitShift(p: Prime, c: Circuit, f: Facts, op: IntOp, x: Num, y: Num, reg: nat, k: nat, n: nat, high: Lc)
    requires p > Pow2(253) && Indexed(c) && OkFacts(p, c, f) && Ending(f) && n == c.next && (reg == 32 || reg == 64)
    requires OkNum(p, c, x, reg) && k < WidthOf(x) && ShiftsBy(p, c, op, reg, x, y, k)
    requires Below(LcOf(x), n) && SplitLc(f, LcOf(x), k, n).Some? && SplitLc(f, LcOf(x), k, n).value.1 == high
    ensures Below(high, n) && InRange(p, c, high, WidthOf(x) - k) && Exact(p, c, op, reg, x, y, high)
    ensures WidthOf(x) <= reg
  {
    hide Indexed, Meets, Value, Pow2, IsPrime, OkNum, NumVal, WordVal, SplitLc, OkFacts, Ending;
    NumParts(p, c, x, reg);
    SplitBelowNext(f, LcOf(x), k, n);
    forall s: Assignment | Meets(p, c, s)
      ensures Value(p, high, s) == WordVal(op, reg, NumVal(p, x, s), NumVal(p, y, s)) < Pow2(WidthOf(x) - k)
    {
      SplitLcSound(p, c, f, LcOf(x), k, n, s);
      QuotientBound(NumVal(p, x, s), WidthOf(x), k);
    }
    RangeExact(p, c, op, reg, x, y, high, WidthOf(x) - k);
  }

  lemma BitShift(p: Prime, c: Circuit, op: IntOp, x: Num, y: Num, reg: nat, k: nat, bits: seq<Lc>)
    requires p > Pow2(253) && Indexed(c) && (reg == 32 || reg == 64) && OkNum(p, c, x, reg)
      && ShiftsBy(p, c, op, reg, x, y, k)
    requires k < WidthOf(x) == |bits| && Decomposed(p, c, LcOf(x), bits)
    ensures InRange(p, c, Recomposed(bits[k..]), WidthOf(x) - k) && Exact(p, c, op, reg, x, y, Recomposed(bits[k..]))
    ensures WidthOf(x) <= reg
  {
    hide Indexed, Meets, Value, Pow2, IsPrime, OkNum, NumVal, WordVal, AreBitsOf, Recomposed;
    NumParts(p, c, x, reg);
    Pow2Mono(WidthOf(x), 253);
    forall s: Assignment | Meets(p, c, s)
      ensures Value(p, Recomposed(bits[k..]), s) == WordVal(op, reg, NumVal(p, x, s),
        NumVal(p, y, s)) < Pow2(WidthOf(x) - k)
    {
      RecomposedParts(p, Value(p, LcOf(x), s), bits, k, s);
      QuotientBound(NumVal(p, x, s), WidthOf(x), k);
    }
    RangeExact(p, c, op, reg, x, y, Recomposed(bits[k..]), WidthOf(x) - k);
  }

  lemma SarForm(p: Prime, c: Circuit, x: Num, y: Num, reg: nat, k: nat, bits: seq<Lc>, lc: Lc)
    requires p > Pow2(253) && Indexed(c) && (reg == 32 || reg == 64) && OkNum(p, c, x, reg) && y.Known?
      && k == y.k % reg
    requires WidthOf(x) >= reg && |bits| == reg && Decomposed(p, c, LcOf(x), bits)
    requires lc == Add(Recomposed(bits[k..]), Scale(bits[reg - 1], Ones(reg, k)))
    ensures InRange(p, c, lc, reg) && Exact(p, c, ShrS, reg, x, y, lc)
  {
    hide Indexed, Meets, Value, Pow2, IsPrime, OkNum, NumVal, Recomposed, Ones, Quot;
    NumParts(p, c, x, reg);
    KnownValue(p, y);
    Pow2Mono(reg, 253);
    forall s: Assignment | Meets(p, c, s)
      ensures Value(p, lc, s) == WordVal(ShrS, reg, NumVal(p, x, s), NumVal(p, y, s)) < Pow2(reg)
    {
      var v := NumVal(p, x, s);
      RecomposedParts(p, v, bits, k, s);
      SignBit(v, reg);
      SarValue(p, Recomposed(bits[k..]), bits[reg - 1], v, k, reg, s);
    }
    RangeExact(p, c, ShrS, reg, x, y, lc, reg);
  }

  lemma SarValue(p: Prime, q: Lc, top: Lc, v: nat, k: nat, reg: nat, s: Assignment)
    requires Pow2(reg) <= p && v < Pow2(reg) && k < reg && Value(p, q, s) == v / Pow2(k)
    requires Value(p, top, s) == if 2 * v >= Pow2(reg) then 1 else 0
    ensures Value(p, Add(q, Scale(top, Ones(reg, k))), s)
         == Quot(v, Pow2(k)) + (if 2 * v >= Pow2(reg) then Ones(reg, k) else 0) < Pow2(reg)
  {
    hide Eval, Pow2, IsPrime, Value;
    QuotientBound(v, reg, k);
    Pow2Mono(reg - k, reg);
    var (t, ones) := (Value(p, top, s), Ones(reg, k));
    assert ones * t == if t == 1 then ones else 0;
    assert ones < Pow2(reg);
    ScaleValue(p, top, ones, s);
    SumValue(p, q, Scale(top, ones), s);
  }

  lemma RotForm(p: Prime, c: Circuit, op: IntOp, x: Num, y: Num, reg: nat, k: nat, j: nat, bits: seq<Lc>,
                turned: seq<Lc>)
    requires p > Pow2(253) && Indexed(c) && (reg == 32 || reg == 64) && OkNum(p, c, x, reg) && y.Known?
      && k == y.k % reg
    requires (op == Rotl || op == Rotr) && j == (if op == Rotl then reg - k else k)
    requires |bits| == reg && Decomposed(p, c, LcOf(x), bits) && turned == bits[j..] + bits[..j]
    ensures InRange(p, c, Recomposed(turned), reg) && Exact(p, c, op, reg, x, y, Recomposed(turned))
  {
    hide Indexed, Meets, Value, Pow2, IsPrime, OkNum, NumVal, Recomposed, WordVal;
    NumParts(p, c, x, reg);
    KnownValue(p, y);
    Pow2Mono(reg, 253);
    forall s: Assignment | Meets(p, c, s)
      ensures Value(p, Recomposed(turned), s) == WordVal(op, reg, NumVal(p, x, s), NumVal(p, y, s)) < Pow2(reg)
    {
      var v := NumVal(p, x, s);
      Pow2Mono(WidthOf(x), reg);
      TurnedValue(p, v, bits, j, turned, s);
      TurnedWord(op, v, y.k, k, j, reg);
    }
    RangeExact(p, c, op, reg, x, y, Recomposed(turned), reg);
  }

  lemma TurnedWord(op: IntOp, v: nat, y: nat, k: nat, j: nat, reg: nat)
    requires reg > 0 && v < Pow2(reg) && k == y % reg && (op == Rotl || op == Rotr)
      && j == (if op == Rotl then reg - k else k)
    ensures v / Pow2(j) + (v % Pow2(j)) * Pow2(reg - j) == WordVal(op, reg, v, y)
  {
    hide Pow2;
    ModSmall(k, reg);
    if op == Rotl {
      RotateLeft(v, k, reg);
      assert reg - j == k;
    } else {
      RotateRight(v, k, reg);
    }
  }

  lemma TurnedValue(p: Prime, v: nat, bits: seq<Lc>, j: nat, turned: seq<Lc>, s: Assignment)
    requires AreBitsOf(p, bits, v, s) && v < Pow2(|bits|) <= p && j <= |bits| && turned == bits[j..] + bits[..j]
    ensures Value(p, Recomposed(turned), s) == v / Pow2(j) + (v % Pow2(j)) * Pow2(|bits| - j) < Pow2(|bits|)
  {
    hide Value, Eval, IsPrime, Pow2, BitSum, AreBitsOf, Recomposed, BitsAt;
    var n := |bits|;
    TurnedBits(p, v, bits, j, turned, s);
    RecomposedValue(p, turned, s);
    RecomposedParts(p, v, bits, j, s);
    Pow2Mono(j, n);
    Pow2Mono(n - j, n);
    RecomposedValue(p, bits[j..], s);
    RecomposedValue(p, bits[..j], s);
    TurnedSum(ValuesOf(p, turned, s), n - j, ValuesOf(p, bits[j..], s), ValuesOf(p, bits[..j], s));
  }

  lemma TurnedSum(v: seq<nat>, k: nat, a: seq<nat>, b: seq<nat>)
    requires v == a + b && |a| == k
    ensures BitSum(v) == BitSum(a) + BitSum(b) * Pow2(k)
  {
    hide BitSum, Pow2;
    BitSumSplit(v, k);
    assert v[..k] == a && v[k..] == b;
    assert Pow2(k) * BitSum(b) == BitSum(b) * Pow2(k);
  }

  lemma TurnedBits(p: Prime, v: nat, bits: seq<Lc>, j: nat, turned: seq<Lc>, s: Assignment)
    requires AreBitsOf(p, bits, v, s) && j <= |bits| && turned == bits[j..] + bits[..j]
    ensures BitsAt(p, turned, s) && BitsAt(p, bits[j..], s) && BitsAt(p, bits[..j], s)
  {
    forall i | 0 <= i < |turned|
      ensures Value(p, turned[i], s) <= 1
    {
      var i0 := if i < |bits| - j then i + j else i - (|bits| - j);
      assert turned[i] == bits[i0];
    }
  }

  // ----- division by a power of two -----

  lemma Pow2Division(o: S.Bin, reg: nat, v: nat, k: nat)
    requires reg > 0 && (o.DivU? || o.RemU?)
    ensures WordVal(Plain(o), reg, v, Pow2(k)) == if o.DivU? then v / Pow2(k) else v % Pow2(k)
  {
  }

  lemma PartBound(v: nat, w: nat, k: nat)
    requires v < Pow2(w)
    ensures var m := if k < w then k else w;
      v / Pow2(k) < Pow2(w - m) && v % Pow2(k) < Pow2(m) && v / Pow2(k) == v / Pow2(m) && v % Pow2(k) == v % Pow2(m)
  {
    hide Pow2;
    if k < w {
      QuotientBound(v, w, k);
      ModBelow(v, Pow2(k));
    } else {
      Pow2Mono(w, k);
      ModUnique(v, Pow2(k), 0, v);
      ModUnique(v, Pow2(w), 0, v);
    }
  }

  lemma ModBelow(v: nat, w: nat)
    requires w > 0
    ensures v % w < w
  {
  }

  lemma SplitDiv(p: Prime, c: Circuit, f: Facts, o: S.Bin, x: Num, y: Num, reg: nat, k: nat, w: nat, n: nat, lc: Lc)
    requires p > Pow2(253) && Indexed(c) && OkFacts(p, c, f) && Ending(f) && n == c.next && (reg == 32 || reg == 64)
    requires OkNum(p, c, x, reg) && y == Known(Pow2(k)) && (o.DivU? || o.RemU?)
    requires Below(LcOf(x), n) && SplitLc(f, LcOf(x), k, n).Some?
    requires lc == if o.DivU? then SplitLc(f, LcOf(x), k, n).value.1 else SplitLc(f, LcOf(x), k, n).value.0
    requires var m := if k < WidthOf(x) then k else WidthOf(x); w == if o.DivU? then WidthOf(x) - m else m
    ensures Below(lc, n) && InRange(p, c, lc, w) && w <= reg && Exact(p, c, Plain(o), reg, x, y, lc)
  {
    hide Indexed, Meets, Value, Pow2, IsPrime, OkNum, NumVal, WordVal, SplitLc, OkFacts, Ending;
    NumParts(p, c, x, reg);
    KnownValue(p, y);
    SplitBelowNext(f, LcOf(x), k, n);
    forall s: Assignment | Meets(p, c, s)
      ensures Value(p, lc, s) == WordVal(Plain(o), reg, NumVal(p, x, s), NumVal(p, y, s)) < Pow2(w)
    {
      SplitLcSound(p, c, f, LcOf(x), k, n, s);
      Pow2Division(o, reg, NumVal(p, x, s), k);
      PartBound(NumVal(p, x, s), WidthOf(x), k);
    }
    RangeExact(p, c, Plain(o), reg, x, y, lc, w);
  }

  lemma BitsDiv(p: Prime, c: Circuit, o: S.Bin, x: Num, y: Num, reg: nat, k: nat, m: nat, w: nat, bits: seq<Lc>,
                part: seq<Lc>)
    requires p > Pow2(253) && Indexed(c) && (reg == 32 || reg == 64) && k < reg
    requires OkNum(p, c, x, reg) && y == Known(Pow2(k)) && (o.DivU? || o.RemU?) && Decomposed(p, c, LcOf(x), bits)
    requires |bits| == if WidthOf(x) > k then WidthOf(x) else k
    requires m == (if k < WidthOf(x) then k else WidthOf(x)) && w == (if o.DivU? then WidthOf(x) - m else m)
    requires part == if o.DivU? then bits[m..] else bits[..m]
    ensures InRange(p, c, Recomposed(part), w) && w <= reg && Exact(p, c, Plain(o), reg, x, y, Recomposed(part))
  {
    hide Indexed, Meets, Value, Pow2, IsPrime, OkNum, NumVal, WordVal, AreBitsOf, Recomposed;
    NumParts(p, c, x, reg);
    KnownValue(p, y);
    Pow2Mono(|bits|, 253);
    forall s: Assignment | Meets(p, c, s)
      ensures Value(p, Recomposed(part), s) == WordVal(Plain(o), reg, NumVal(p, x, s), NumVal(p, y, s)) < Pow2(w)
    {
      var v := NumVal(p, x, s);
      Pow2Mono(WidthOf(x), |bits|);
      RecomposedParts(p, v, bits, m, s);
      Pow2Division(o, reg, v, k);
      PartBound(v, WidthOf(x), k);
    }
    RangeExact(p, c, Plain(o), reg, x, y, Recomposed(part), w);
  }
}
