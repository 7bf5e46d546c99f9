/** Shifts by a witness amount: a power of two spelled by its bits, multiplied or divided by. */
module NumPowers {
  import opened Words
  import opened Fields
  import opened Linear
  import opened Circuits
  import opened Solving
  import opened Bits
  import opened Builder
  import opened WordOps
  import opened Nums
  import opened NumBits
  import opened NumShifts
  import opened NumDivision
  import S = SymValues

  // ----- shifts by a witness amount -----

  /** `pw` is two to the low `i` bits of `x`. */
  ghost predicate IsPower(p: Prime, c: Circuit, pw: Lc, x: Lc, i: nat)
    requires Indexed(c)
  {
    forall s: Assignment :: Meets(p, c, s) ==> Value(p, pw, s) == Pow2(Value(p, x, s) % Pow2(i))
  }

  lemma NoDigits(p: Prime, c: Circuit, x: Lc)
    requires Indexed(c)
    ensures IsPower(p, c, Const(1), x, 0)
  {
    hide Meets, IsPrime;
    forall s: Assignment
      ensures Value(p, Const(1), s) == Pow2(Value(p, x, s) % Pow2(0))
    {
      ModSmall(1, p);
    }
  }

  lemma OneDigit(p: Prime, c: Circuit, d: Circuit, bits: seq<Lc>, pw: Lc, f: Lc, next: Lc, x: Lc, i: nat)
    requires p > Pow2(253) && Indexed(c) && Indexed(d) && Tightens(p, c, d) && i < |bits| <= 6
    requires IsPower(p, c, pw, x, i) && Decomposed(p, c, x, bits)
      && f == Add(Const(1), Scale(bits[i], Pow2(Pow2(i)) - 1))
    requires if IsConst(pw) then next == Scale(f, pw.constant)
             else forall s: Assignment :: Meets(p, d, s) ==> Cong(p, Eval(next, s), Eval(pw, s) * Eval(f, s))
    ensures IsPower(p, d, next, x, i + 1)
  {
    hide Indexed, Meets, IsPrime, Eval, Pow2, AreBitsOf, Value, Cong;
    forall s: Assignment | Meets(p, d, s)
      ensures Value(p, next, s) == Pow2(Value(p, x, s) % Pow2(i + 1))
    {
      assert Meets(p, c, s);
      assert Cong(p, Eval(next, s), Eval(pw, s) * Eval(f, s)) by {
        if IsConst(pw) {
          ConstEval(pw, s);
          CongSelf(p, Eval(next, s));
        }
      }
      BitAtIndex(p, bits, Value(p, x, s), s, i);
      FactorValue(p, bits[i], i, s);
      PowerDigits(Value(p, x, s), i);
      PowerSmall(p, Value(p, x, s), i + 1);
      TimesValue(p, next, pw, f, s);
    }
  }

  lemma BitAtIndex(p: Prime, bits: seq<Lc>, x: nat, s: Assignment, i: nat)
    requires AreBitsOf(p, bits, x, s) && i < |bits|
    ensures Value(p, bits[i], s) == BitOf(x, i)
  {
  }

  lemma TimesValue(p: Prime, z: Lc, x: Lc, y: Lc, s: Assignment)
    requires Cong(p, Eval(z, s), Eval(x, s) * Eval(y, s)) && Value(p, x, s) * Value(p, y, s) < p
    ensures Value(p, z, s) == Value(p, x, s) * Value(p, y, s)
  {
    hide IsPrime, Eval;
    CongMod(p, Eval(x, s));
    CongMod(p, Eval(y, s));
    CongMul(p, Eval(x, s), Value(p, x, s), Eval(y, s), Value(p, y, s));
    ModSmall(Value(p, x, s) * Value(p, y, s), p);
  }

  /** A factor is `2^(2^i)` where its bit is 1, and 1 where it is 0. */
  lemma FactorValue(p: Prime, b: Lc, i: nat, s: Assignment)
    requires p > Pow2(253) && i < 6 && Value(p, b, s) <= 1
    ensures Value(p, Add(Const(1), Scale(b, Pow2(Pow2(i)) - 1)), s) == Pow2(Value(p, b, s) * Pow2(i))
  {
    hide IsPrime, Eval, Pow2, Value;
    var (k, t) := (Pow2(Pow2(i)), Value(p, b, s));
    SmallPowers(i);
    Pow2Mono(Pow2(i), 252);
    PowDouble(252);
    assert (k - 1) * t == if t == 1 then k - 1 else 0;
    ScaleValue(p, b, k - 1, s);
    ValueOne(p, s);
    SumValue(p, Const(1), Scale(b, k - 1), s);
    PowZero();
    assert t * Pow2(i) == if t == 1 then Pow2(i) else 0;
  }

  lemma ValueOne(p: Prime, s: Assignment)
    ensures Value(p, Const(1), s) == 1
  {
    ModSmall(1, p);
  }

  lemma SmallPowers(i: nat)
    requires i <= 6
    ensures i < 6 ==> Pow2(i) <= 32
    ensures Pow2(i) <= 64
  {
    Pow2Mono(i, 6);
    if i < 6 {
      Pow2Mono(i, 5);
    }
  }

  /** One more digit of the exponent. */
  lemma PowerDigits(x: nat, i: nat)
    ensures Pow2(x % Pow2(i + 1)) == Pow2(x % Pow2(i)) * Pow2(BitOf(x, i) * Pow2(i))
  {
    var (w, q) := (Pow2(i), x / Pow2(i));
    var (h, b, r) := (q / 2, q % 2, x % w);
    assert x == q * w + r;
    assert q * w == h * (2 * w) + b * w;
    assert b * w + r < 2 * w;
    ModUnique(x, 2 * w, h, b * w + r);
    Pow2Add(r, b * w);
  }

  lemma PowerSmall(p: Prime, x: nat, i: nat)
    requires p > Pow2(253) && i <= 6
    ensures Pow2(x % Pow2(i)) < p
  {
    SmallPowers(i);
    ModBelow(x, Pow2(i));
    Pow2Mono(x % Pow2(i), 253);
  }

  lemma LowBits(p: Prime, c: Circuit, x: Lc, bits: seq<Lc>, n: nat)
    requires Indexed(c) && n <= |bits| && Decomposed(p, c, x, bits)
    ensures Decomposed(p, c, x, bits[..n])
  {
    hide Meets, Value;
    forall s: Assignment | Meets(p, c, s)
      ensures AreBitsOf(p, bits[..n], Value(p, x, s), s)
    {
      assert AreBitsOf(p, bits, Value(p, x, s), s);
    }
  }

  /** `pw` is two to the shift amount. */
  ghost predicate Shifts(p: Prime, c: Circuit, y: Num, reg: nat, pw: Lc)
    requires Indexed(c) && reg > 0
  {
    forall s: Assignment :: Meets(p, c, s) ==> Value(p, pw, s) == Pow2(NumVal(p, y, s) % reg)
  }

  lemma ShiftPower(p: Prime, c: Circuit, y: Num, reg: nat, lg: nat, pw: Lc)
    requires p > Pow2(253) && Indexed(c) && (reg == 32 || reg == 64) && OkNum(p, c, y, reg)
      && lg == (if reg == 64 then 6 else 5)
    requires IsPower(p, c, pw, LcOf(y), lg)
    ensures Shifts(p, c, y, reg, pw)
  {
    hide Meets, Value, IsPrime, OkNum;
    NumParts(p, c, y, reg);
    assert Pow2(3) == 8;
    assert Pow2(5) == 32 && Pow2(6) == 64;
  }

  lemma LeftForm(p: Prime, c: Circuit, d: Circuit, x: Num, y: Num, reg: nat, pw: Lc, v: nat)
    requires p > Pow2(253) && Indexed(c) && Indexed(d) && Tightens(p, c, d) && (reg == 32 || reg == 64)
    requires OkNum(p, c, x, reg) && Shifts(p, c, y, reg, pw)
    requires forall s: Assignment :: Meets(p, d, s) ==> Cong(p, s(v), Eval(LcOf(x), s) * Eval(pw, s))
    ensures InRange(p, d, Var(v), WidthOf(x) + reg - 1) && WidthOf(x) + reg - 1 <= 127
      && Exact(p, d, Plain(S.Shl), reg, x, y, Var(v))
  {
    hide Indexed, Meets, IsPrime, Eval, Pow2, Value, Cong, OkNum, NumVal;
    NumParts(p, c, x, reg);
    var w := WidthOf(x) + reg - 1;
    forall s: Assignment | Meets(p, d, s)
      ensures Value(p, Var(v), s) == Lift(NumVal(p, x, s), NumVal(p, y, s) % reg) < Pow2(w)
    {
      assert Meets(p, c, s);
      var k := NumVal(p, y, s) % reg;
      LiftBound(NumVal(p, x, s), WidthOf(x), k);
      Pow2Mono(WidthOf(x) + k, w);
      Wide(p, w);
      assert NumVal(p, x, s) * Pow2(k) == Pow2(k) * NumVal(p, x, s);
      TimesValue(p, Var(v), LcOf(x), pw, s);
    }
  }

  lemma PowerRange(p: Prime, c: Circuit, d: Circuit, y: Num, reg: nat, pw: Lc, n: nat)
    requires Indexed(c) && Indexed(d) && Tightens(p, c, d) && 0 < reg <= n && Shifts(p, c, y, reg, pw)
    ensures InRange(p, d, pw, n)
  {
    hide Indexed, Meets, IsPrime, Pow2, Value, NumVal;
    forall s: Assignment | Meets(p, d, s)
      ensures Value(p, pw, s) < Pow2(n)
    {
      assert Meets(p, c, s);
      var k := NumVal(p, y, s) % reg;
      Pow2Mono(k, n - 1);
      PowDouble(n - 1);
    }
  }

  lemma RightPinned(p: Prime, c: Circuit, c1: Circuit, d: Circuit, x: Num, y: Num, reg: nat, pw: Lc, q: nat, r: nat,
                    w: nat)
    requires p > Pow2(253) && Indexed(c) && Indexed(c1) && Indexed(d) && Tightens(p, c, c1) && Extends(c, c1)
      && Extends(c1, d)
    requires c.next <= c1.next && c1.next <= d.next && (reg == 32 || reg == 64) && OkNum(p, c, x, reg)
      && Shifts(p, c, y, reg, pw)
    requires w == if WidthOf(x) > 1 then WidthOf(x) else 1
    requires forall s: Assignment :: (Meets(p, c1, s) <==> Meets(p, c, s) && (Live(p, None, s) || Zeroed(p, q, r, s)))
    requires forall s: Assignment :: Hinted(p, c1, |c.gens|, s) <==> AsHinted(p, DivRem(q, r, LcOf(x), pw), s)
    requires forall s: Assignment :: AddsAt(p, c1, d, s, DivOk(p, q, r, LcOf(x), pw, w, w, None, s))
    ensures Forces(p, c, d)
    ensures forall s: Assignment :: Meets(p, d, s) ==> IsQuotient(p, q, r, Value(p, LcOf(x), s), Value(p, pw, s), s)
  {
    hide Indexed, Meets, Hinted, Extends, Value, Pow2, IsPrime, Eval, DivOk, AsHinted, OkNum, NumVal, IsQuotient,
      Zeroed;
    NumParts(p, c, x, reg);
    ExtendsTrans(c, c1, d);
    forall s: Assignment
      ensures AddsAt(p, c, d, s, true)
      ensures Meets(p, d, s) ==> IsQuotient(p, q, r, Value(p, LcOf(x), s), Value(p, pw, s), s)
    {
      HintedSplit(p, c, c1, d, s);
      assert Live(p, None, s);
      assert AddsAt(p, c1, d, s, DivOk(p, q, r, LcOf(x), pw, w, w, None, s));
      if Meets(p, c, s) {
        HintIsQuotient(p, q, r, LcOf(x), pw, s);
        var k := NumVal(p, y, s) % reg;
        Pow2Mono(k, 63);
        PowDouble(63);
        Pow2Mono(WidthOf(x), w);
        LowerBound(Value(p, LcOf(x), s), Value(p, pw, s));
        LiveDivision(p, q, r, LcOf(x), pw, w, w, s);
      }
    }
  }

  /** `2^k` is not 0 in the field, so the hint can always be run. */
  lemma RightCompletes(p: Prime, c: Circuit, c1: Circuit, d: Circuit, x: Num, y: Num, reg: nat, pw: Lc, q: nat, r: nat)
    requires p > Pow2(253) && Shaped(c) && Shaped(c1) && Shaped(d) && Extends(c, c1) && Extends(c1, d)
    requires NoDivision(c1, d) && c1.gens == c.gens + [Some(DivRem(q, r, LcOf(x), pw))]
    requires reg > 0 && Shifts(p, c, y, reg, pw) && Forces(p, c, d)
    ensures Pinned(p, c, d)
  {
    hide Ordered, Meets, Hinted, Value, IsPrime, Completes, NoDivision, NumVal;
    var g := DivRem(q, r, LcOf(x), pw);
    assert c1.gens[|c.gens|] == Some(g);
    assert HintAt(c1, |c.gens|) == g;
    forall s: Assignment | Meets(p, c, s)
      ensures Completes(p, c, d, s)
    {
      assert Value(p, pw, s) != 0;
      assert Run(p, g, s).Some?;
      DivisionCompletes(p, c, c1, d, g, s);
    }
  }

  lemma RightForm(p: Prime, c: Circuit, d: Circuit, x: Num, y: Num, reg: nat, pw: Lc, q: nat, r: nat)
    requires p > Pow2(253) && Indexed(c) && Indexed(d) && Tightens(p, c, d) && (reg == 32 || reg == 64)
    requires OkNum(p, c, x, reg) && Shifts(p, c, y, reg, pw)
    requires forall s: Assignment :: Meets(p, d, s) ==> IsQuotient(p, q, r, Value(p, LcOf(x), s), Value(p, pw, s), s)
    ensures InRange(p, d, Var(q), WidthOf(x)) && WidthOf(x) <= reg && Exact(p, d, Plain(S.ShrU), reg, x, y, Var(q))
  {
    hide Indexed, Meets, IsPrime, Eval, Pow2, OkNum, NumVal;
    NumParts(p, c, x, reg);
    forall s: Assignment | Meets(p, d, s)
      ensures Value(p, Var(q), s) == WordVal(Plain(S.ShrU), reg, NumVal(p, x, s), NumVal(p, y, s)) < Pow2(WidthOf(x))
    {
      assert Meets(p, c, s);
      Smaller(NumVal(p, x, s), Value(p, pw, s));
    }
    RangeExact(p, d, Plain(S.ShrU), reg, x, y, Var(q), WidthOf(x));
  }

  /** `r` is the quotient or remainder where every literal of `arms` is 1, and then `y` is not 0; elsewhere it
      is 0. */
  ghost predicate DivComputes(p: Prime, c: Circuit, o: S.Bin, reg: nat, x: Num, y: Num, arms: seq<Arm>, r: Num)
    requires Indexed(c) && reg > 0
  {
    && OkNum(p, c, r, reg)
    && forall s: Assignment :: Meets(p, c, s) ==>
         if AllTaken(p, arms, s) then
           NumVal(p, y, s) != 0 && NumVal(p, r, s) == WordVal(Plain(o), reg, NumVal(p, x, s), NumVal(p, y, s))
         else NumVal(p, r, s) == 0
  }

  /** `q` and `r` hold the quotient and remainder of `x` by `y`, which is not 0. */
  ghost predicate IsQuotient(p: Prime, q: nat, r: nat, x: nat, y: nat, s: Assignment) {
    y != 0 && s(q) % p == x / y && s(r) % p == x % y
  }

  ghost predicate Zeroed(p: Prime, q: nat, r: nat, s: Assignment) {
    s(q) % p == 0 && s(r) % p == 0
  }

  lemma NumsBelow(p: Prime, c: Circuit, d: Circuit, x: Num, y: Num, reg: nat)
    requires p > Pow2(253) && Indexed(c) && Indexed(d) && Tightens(p, c, d) && reg <= 64 && OkNum(p, c, x, reg)
      && OkNum(p, c, y, reg)
    ensures forall s: Assignment :: Meets(p, d, s) ==>
      NumVal(p, x, s) < Pow2(WidthOf(x)) && NumVal(p, y, s) < Pow2(WidthOf(y))
    ensures forall s: Assignment :: Meets(p, d, s) ==> NumVal(p, x, s) < Pow2(reg) && NumVal(p, y, s) < Pow2(reg)
    ensures WidthOf(x) <= reg && WidthOf(y) <= reg
  {
    hide Indexed, Meets, Value, Pow2, OkNum;
    NumParts(p, c, x, reg);
    NumParts(p, c, y, reg);
    forall s: Assignment | Meets(p, d, s)
      ensures NumVal(p, x, s) < Pow2(WidthOf(x)) <= Pow2(reg) && NumVal(p, y, s) < Pow2(WidthOf(y)) <= Pow2(reg)
    {
      assert Meets(p, c, s);
      BothInRange(p, c, x, y, reg, s);
    }
  }

  /** Quotient and remainder are the only numbers in range that fit. */
  lemma DivisionUnique(p: Prime, x: nat, y: nat, q: nat, r: nat)
    requires p > Pow2(253) && x < Pow2(64) && y < Pow2(64) && q < Pow2(64)
    ensures r < y && Cong(p, q * y + r, x) <==> y != 0 && q == x / y && r == x % y
  {
    hide IsPrime, Pow2;
    if r < y {
      ProductBound(q, y, 64, 64);
      Pow2Mono(128, 252);
      Pow2Mono(64, 252);
      PowDouble(252);
      if Cong(p, q * y + r, x) {
        CongSmall(p, q * y + r, x);
        ModUnique(x, y, q, r);
      }
    }
  }

  lemma DivisorInRange(p: Prime, c: Circuit, c1: Circuit, c2: Circuit, y: Num, reg: nat, w: nat)
    requires p > Pow2(253) && Indexed(c) && Indexed(c1) && Indexed(c2) && Tightens(p, c, c1) && Tightens(p, c1, c2)
    requires OkNum(p, c, y, reg) && reg <= 64 && w == if WidthOf(y) > 1 then WidthOf(y) else 1
    ensures InRange(p, c2, LcOf(y), w)
  {
    hide Indexed, Meets, Value, Pow2, OkNum;
    NumParts(p, c, y, reg);
    Pow2Mono(WidthOf(y), w);
    forall s: Assignment | Meets(p, c2, s)
      ensures Value(p, LcOf(y), s) < Pow2(w)
    {
      assert Meets(p, c1, s) && Meets(p, c, s);
    }
  }

  /** In a live arm the checks say exactly what the hint does. */
  lemma LiveDivision(p: Prime, q: nat, r: nat, la: Lc, lb: Lc, wq: nat, wr: nat, s: Assignment)
    requires p > Pow2(253) && 1 <= wq <= 64 && wr <= 64 && Value(p, la, s) < Pow2(wq) && Value(p, lb, s) < Pow2(64)
    requires Value(p, lb, s) != 0 ==> Value(p, la, s) % Value(p, lb, s) < Pow2(wr)
    ensures DivOk(p, q, r, la, lb, wq, wr, None, s)
       <==> IsQuotient(p, q, r, Value(p, la, s), Value(p, lb, s), s)
  {
    hide IsPrime, Pow2, Eval;
    var (x, y, u, v) := (Value(p, la, s), Value(p, lb, s), s(q) % p, s(r) % p);
    Pow2Mono(wq, 64);
    CongMod(p, s(q));
    CongMod(p, s(r));
    CongMod(p, Eval(lb, s));
    CongMod(p, Eval(la, s));
    CongMul(p, s(q), u, Eval(lb, s), y);
    CongAdd(p, s(q) * Eval(lb, s), u * y, s(r), v);
    if y != 0 {
      Smaller(x, y);
    }
    if u < Pow2(wq) {
      DivisionUnique(p, x, y, u, v);
    }
  }

  /** The gated operands of the hint: the operands in a live arm, and a quotient of 0 by a nonzero in a dead one. */
  lemma HintOperands(p: Prime, x: Num, y: Num, g: Option<Lc>, den: Lc, s: Assignment)
    requires p > Pow2(253) && Value(p, LcOf(y), s) < Pow2(64) && (g.Some? ==> Value(p, g.value, s) <= 1)
    requires den == if g.Some? && y.Wire? then Add(LcOf(y), Sub(Const(1), g.value)) else LcOf(y)
    requires y.Known? ==> y.k != 0 && Value(p, LcOf(y), s) == y.k
    ensures if Live(p, g, s)
      then Value(p, den, s) == Value(p, LcOf(y), s) && Gated(p, g, LcOf(x), s) == Value(p, LcOf(x), s)
            else Value(p, den, s) != 0 && Gated(p, g, LcOf(x), s) == 0
  {
    hide IsPrime, Pow2, Eval, Value;
    GatedValue(p, g, LcOf(x), s);
    if g.Some? && y.Wire? {
      Pow2Mono(64, 252);
      PowDouble(252);
      NotValue(p, g.value, 0, s);
      assert Pow2(252) >= 1;
      SumValue(p, LcOf(y), Sub(Const(1), g.value), s);
    }
  }

  lemma ZeroQuotient(d: nat)
    requires d > 0
    ensures 0 / d == 0 && 0 % d == 0
  {
    ModUnique(0, d, 0, 0);
  }

  /** At `s`, the hint's pins and the checks are together the hinted values. */
  lemma DivisionAt(p: Prime, x: Num, y: Num, g: Option<Lc>, num: Lc, den: Lc, q: nat, r: nat, wq: nat, wr: nat,
                   s: Assignment)
    requires p > Pow2(253) && 1 <= wq <= 64 && 1 <= wr <= 64 && Value(p, LcOf(x), s) < Pow2(wq)
      && Value(p, LcOf(y), s) < Pow2(wr)
    requires (g.Some? ==> Value(p, g.value, s) <= 1) && Value(p, num, s) == Gated(p, g, LcOf(x), s)
    requires Live(p, g, s) || (g.Some? && Value(p, g.value, s) == 0)
    requires den == if g.Some? && y.Wire? then Add(LcOf(y), Sub(Const(1), g.value)) else LcOf(y)
    requires y.Known? ==> y.k != 0 && Value(p, LcOf(y), s) == y.k
    ensures (Live(p, g, s) || Zeroed(p, q, r, s)) && DivOk(p, q, r, LcOf(x), LcOf(y), wq, wr, g, s)
       <==> AsHinted(p, DivRem(q, r, num, den), s)
    ensures AsHinted(p, DivRem(q, r, num, den), s) ==>
              if Live(p, g, s) then IsQuotient(p, q, r, Value(p, LcOf(x), s), Value(p, LcOf(y), s), s)
                else Zeroed(p, q, r, s)
  {
    hide IsPrime, Pow2, Eval, Value, Cong, Live, DivOk, Gated;
    HintIsQuotient(p, q, r, num, den, s);
    Pow2Mono(wr, 64);
    HintOperands(p, x, y, g, den, s);
    if Live(p, g, s) {
      if Value(p, LcOf(y), s) != 0 {
        Smaller(Value(p, LcOf(x), s), Value(p, LcOf(y), s));
      }
      LiveDivision(p, q, r, LcOf(x), LcOf(y), wq, wr, s);
      LiveGate(p, q, r, LcOf(x), LcOf(y), wq, wr, g, s);
    } else {
      DeadDivision(p, q, r, LcOf(x), LcOf(y), wq, wr, g, Value(p, den, s), s);
    }
  }

  lemma HintIsQuotient(p: Prime, q: nat, r: nat, num: Lc, den: Lc, s: Assignment)
    ensures AsHinted(p, DivRem(q, r, num, den), s) <==> IsQuotient(p, q, r, Value(p, num, s), Value(p, den, s), s)
  {
    hide Value, IsPrime;
  }

  lemma DeadDivision(p: Prime, q: nat, r: nat, la: Lc, lb: Lc, wq: nat, wr: nat, g: Option<Lc>, d: nat, s: Assignment)
    requires g.Some? && Value(p, g.value, s) == 0 && d != 0
    ensures Zeroed(p, q, r, s) <==> IsQuotient(p, q, r, 0, d, s)
    ensures Zeroed(p, q, r, s) ==> DivOk(p, q, r, la, lb, wq, wr, g, s)
  {
    hide IsPrime;
    ZeroQuotient(d);
  }

  lemma LiveGate(p: Prime, q: nat, r: nat, la: Lc, lb: Lc, wq: nat, wr: nat, g: Option<Lc>, s: Assignment)
    requires Live(p, g, s)
    ensures DivOk(p, q, r, la, lb, wq, wr, g, s) <==> DivOk(p, q, r, la, lb, wq, wr, None, s)
  {
  }

  /** What holds of a finished division in every solution. */
  ghost predicate DivDone(p: Prime, c: Circuit, x: Num, y: Num, arms: seq<Arm>, q: nat, r: nat)
    requires Indexed(c)
  {
    forall s: Assignment :: Meets(p, c, s) ==>
      if AllTaken(p, arms, s) then IsQuotient(p, q, r, NumVal(p, x, s), NumVal(p, y, s), s) else Zeroed(p, q, r, s)
  }

  lemma DivPinned(p: Prime, c: Circuit, c1: Circuit, c2: Circuit, c3: Circuit, x: Num, y: Num, reg: nat, arms: seq<Arm>,
                  g: Option<Lc>, num: Lc, den: Lc, q: nat, r: nat, wq: nat, wr: nat)
    requires p > Pow2(253) && Indexed(c) && Indexed(c1) && Indexed(c2) && Indexed(c3)
    requires Tightens(p, c, c1) && Extends(c1, c2) && Extends(c2, c3) && c1.next <= c2.next && c2.next <= c3.next
      && Tightens(p, c1, c2)
    requires OkNum(p, c, x, reg) && OkNum(p, c, y, reg) && reg <= 64 && y != Known(0)
    requires (g.None? <==> arms == []) && (g.Some? ==> IsGuard(p, c, arms, g.value))
    requires wq == (if WidthOf(x) > 1 then WidthOf(x) else 1) && wr == (if WidthOf(y) > 1 then WidthOf(y) else 1)
    requires den == if g.Some? && y.Wire? then Add(LcOf(y), Sub(Const(1), g.value)) else LcOf(y)
    requires forall s: Assignment :: Meets(p, c1, s) ==> Value(p, num, s) == Gated(p, g, LcOf(x), s)
    requires forall s: Assignment :: g.None? || Value(p, g.value, s) <= 1 ==>
               (Meets(p, c2, s) <==> Meets(p, c1, s) && (Live(p, g, s) || Zeroed(p, q, r, s)))
    requires forall s: Assignment :: Hinted(p, c2, |c1.gens|, s) <==> AsHinted(p, DivRem(q, r, num, den), s)
    requires forall s: Assignment :: AddsAt(p, c2, c3, s, DivOk(p, q, r, LcOf(x), LcOf(y), wq, wr, g, s))
    ensures Forces(p, c1, c3) && DivDone(p, c3, x, y, arms, q, r)
  {
    hide Indexed, Meets, Hinted, Extends, Value, Pow2, IsPrime, Eval, DivOk, AsHinted, OkNum, NumVal, AllTaken, Gated,
      IsQuotient, Zeroed;
    NumParts(p, c, x, reg);
    NumParts(p, c, y, reg);
    ExtendsTrans(c1, c2, c3);
    forall s: Assignment
      ensures AddsAt(p, c1, c3, s, true)
      ensures Meets(p, c3, s) ==>
        if AllTaken(p, arms, s) then IsQuotient(p, q, r, NumVal(p, x, s), NumVal(p, y, s), s) else Zeroed(p, q, r, s)
    {
      HintedSplit(p, c1, c2, c3, s);
      assert AddsAt(p, c2, c3, s, DivOk(p, q, r, LcOf(x), LcOf(y), wq, wr, g, s));
      if Meets(p, c1, s) {
        assert Meets(p, c, s);
        GuardCases(p, c, arms, g, s);
        BothInRange(p, c, x, y, reg, s);
        Pow2Mono(WidthOf(x), wq);
        Pow2Mono(WidthOf(y), wr);
        KnownNum(p, y, s);
        DivisionAt(p, x, y, g, num, den, q, r, wq, wr, s);
      }
    }
  }

  /** The hint can be run wherever the divisor is not 0 or the arm is not taken. */
  lemma DivCompletes(p: Prime, c: Circuit, c1: Circuit, c2: Circuit, c3: Circuit, x: Num, y: Num, reg: nat,
                     arms: seq<Arm>, g: Option<Lc>, num: Lc, den: Lc, q: nat, r: nat)
    requires p > Pow2(253) && Shaped(c) && Shaped(c1) && Shaped(c2) && Shaped(c3)
    requires Pinned(p, c, c1) && Forces(p, c1, c3) && Extends(c1, c2) && Extends(c2, c3) && NoDivision(c2, c3)
    requires c2.gens == c1.gens + [Some(DivRem(q, r, num, den))]
    requires OkArms(p, c, arms) && OkNum(p, c, x, reg) && OkNum(p, c, y, reg) && reg <= 64 && y != Known(0)
    requires (g.None? <==> arms == []) && (g.Some? ==> IsGuard(p, c, arms, g.value))
    requires den == if g.Some? && y.Wire? then Add(LcOf(y), Sub(Const(1), g.value)) else LcOf(y)
    ensures PinnedDiv(p, c, c3, arms, y)
  {
    ForcesTrans(p, c, c1, c3);
    PinnedTightens(p, c, c1);
    assert c2.gens[|c1.gens|] == Some(DivRem(q, r, num, den)) && HintAt(c2, |c1.gens|) == DivRem(q, r, num, den);
    hide Indexed, Ordered, Meets, Hinted, Extends, Value, NoDivision, OkArms, OkNum, IsGuard, AllTaken, Divisible,
      HintAt, AddsAt, Completes;
    forall s: Assignment | Meets(p, c, s) && Divisible(p, arms, y, s)
      ensures Completes(p, c, c3, s)
    {
      assert Completes(p, c, c1, s);
      DivCompletesAt(p, c, c1, c2, c3, x, y, reg, arms, g, num, den, q, r, s);
    }
  }

  lemma DivCompletesAt(p: Prime, c: Circuit, c1: Circuit, c2: Circuit, c3: Circuit, x: Num, y: Num, reg: nat,
                       arms: seq<Arm>, g: Option<Lc>, num: Lc, den: Lc, q: nat, r: nat, s: Assignment)
    requires p > Pow2(253) && Shaped(c) && Shaped(c1) && Shaped(c2) && Shaped(c3)
    requires Completes(p, c, c1, s) && c.next <= c1.next && Tightens(p, c, c1)
    requires Extends(c1, c2) && Extends(c2, c3) && NoDivision(c2, c3)
    requires forall t: Assignment :: AddsAt(p, c1, c3, t, true)
    requires |c2.gens| == |c1.gens| + 1 && HintAt(c2, |c1.gens|) == DivRem(q, r, num, den)
    requires OkArms(p, c, arms) && OkNum(p, c, x, reg) && OkNum(p, c, y, reg) && reg <= 64 && y != Known(0)
    requires (g.None? <==> arms == []) && (g.Some? ==> IsGuard(p, c, arms, g.value))
    requires den == if g.Some? && y.Wire? then Add(LcOf(y), Sub(Const(1), g.value)) else LcOf(y)
    requires Divisible(p, arms, y, s)
    ensures Completes(p, c, c3, s)
  {
    hide Indexed, Ordered, Meets, Hinted, Extends, Value, NoDivision, OkArms, OkNum, IsGuard, AllTaken, Divisible,
      HintAt, AddsAt;
    var t: Assignment :| Meets(p, c1, t) && SameBelow(s, t, c.next);
    SameLitsSelf(arms);
    SameDivisible(p, c, arms, arms, y, reg, s, t);
    DivisorRuns(p, c, x, y, reg, arms, g, den, t);
    DivisionCompletes(p, c1, c2, c3, DivRem(q, r, num, den), t);
    CompletesTrans(p, c, c1, c3, s, t);
  }

  lemma DivisorRuns(p: Prime, c: Circuit, x: Num, y: Num, reg: nat, arms: seq<Arm>, g: Option<Lc>, den: Lc,
                    s: Assignment)
    requires p > Pow2(253) && Indexed(c) && Meets(p, c, s) && Divisible(p, arms, y, s)
    requires OkNum(p, c, x, reg) && OkNum(p, c, y, reg) && reg <= 64 && y != Known(0)
    requires (g.None? <==> arms == []) && (g.Some? ==> IsGuard(p, c, arms, g.value))
    requires den == if g.Some? && y.Wire? then Add(LcOf(y), Sub(Const(1), g.value)) else LcOf(y)
    ensures Value(p, den, s) != 0
  {
    hide Indexed, Meets, Value, AllTaken, OkNum, IsGuard;
    GuardCases(p, c, arms, g, s);
    BothInRange(p, c, x, y, reg, s);
    Pow2Mono(reg, 64);
    KnownNum(p, y, s);
    HintOperands(p, x, y, g, den, s);
  }

  lemma SameLitsSelf(arms: seq<Arm>)
    ensures SameLits(arms, arms)
  {
  }

  lemma KnownNum(p: Prime, y: Num, s: Assignment)
    requires NumVal(p, y, s) == Value(p, LcOf(y), s)
    ensures y.Known? ==> Value(p, LcOf(y), s) == y.k
  {
  }

  /** The results are in the operands' ranges. */
  lemma DivResults(p: Prime, c: Circuit, reg: nat, x: Num, y: Num, arms: seq<Arm>, q: nat, r: nat)
    requires p > Pow2(253) && Indexed(c) && 0 < reg <= 64 && DivDone(p, c, x, y, arms, q, r)
    requires forall s: Assignment :: Meets(p, c, s) ==>
      NumVal(p, x, s) < Pow2(WidthOf(x)) && NumVal(p, y, s) < Pow2(WidthOf(y))
    ensures InRange(p, c, Var(q), WidthOf(x)) && InRange(p, c, Var(r), WidthOf(y))
  {
    hide Indexed, Meets, Pow2, IsPrime, NumVal, AllTaken;
    forall s: Assignment | Meets(p, c, s)
      ensures Value(p, Var(q), s) < Pow2(WidthOf(x)) && Value(p, Var(r), s) < Pow2(WidthOf(y))
    {
      if AllTaken(p, arms, s) {
        Smaller(NumVal(p, x, s), NumVal(p, y, s));
      }
    }
  }

  lemma DividesFrom(p: Prime, c: Circuit, d: Circuit, o: S.Bin, reg: nat, x: Num, y: Num, arms: seq<Arm>,
                    arms0: seq<Arm>, q: nat, m: nat, r: Num)
    requires Indexed(c) && Indexed(d) && 0 < reg <= 64 && Tightens(p, c, d) && DivDone(p, c, x, y, arms, q, m)
    requires (o.DivU? || o.RemU?) && SameLits(arms0, arms) && IsLow(p, d, Var(if o.DivU? then q else m), reg, r)
    requires forall s: Assignment :: Meets(p, c, s) ==> NumVal(p, x, s) < Pow2(reg) && NumVal(p, y, s) < Pow2(reg)
    ensures DivComputes(p, d, o, reg, x, y, arms0, r)
  {
    hide Indexed, Meets, Pow2, IsPrime, OkNum, AllTaken;
    forall s: Assignment | Meets(p, d, s)
      ensures if AllTaken(p, arms0, s) then
                NumVal(p, y, s) != 0 && NumVal(p, r, s) == WordVal(Plain(o), reg, NumVal(p, x, s), NumVal(p, y, s))
              else NumVal(p, r, s) == 0
    {
      assert Meets(p, c, s);
      SameTaken(p, arms0, arms, s);
      var w := Pow2(reg);
      if AllTaken(p, arms, s) {
        var (u, v) := (NumVal(p, x, s), NumVal(p, y, s));
        Smaller(u, v);
        ModSmall(u / v, w);
        ModSmall(u % v, w);
      } else {
        ModSmall(0, w);
      }
    }
  }
}
