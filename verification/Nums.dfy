/** Integer operands as constraints: a constant, or a form proven below a power of two; and what a step may add. */
module Nums {
  import opened Words
  import opened Fields
  import opened Linear
  import opened Circuits
  import opened Solving
  import opened Bits
  import opened Builder
  import opened Intervals
  import opened Recompose
  import opened WordOps
  import S = SymValues

  /** An integer: a constant, or a form and a bound on its width. */
  datatype Num = Known(k: nat) | Wire(lc: Lc, width: nat)

  function BitLength(k: nat): nat {
    if k == 0 then 0 else 1 + BitLength(k / 2)
  }

  function LcOf(x: Num): Lc {
    match x case Known(k) => Const(k) case Wire(lc, _) => lc
  }

  function WidthOf(x: Num): nat {
    match x case Known(k) => BitLength(k) case Wire(_, w) => w
  }

  /** `x` is below `2^w` in every solution. */
  ghost predicate InRange(p: Prime, c: Circuit, x: Lc, w: nat)
    requires Indexed(c)
  {
    forall s: Assignment :: Meets(p, c, s) ==> Value(p, x, s) < Pow2(w)
  }

  ghost predicate OkNum(p: Prime, c: Circuit, x: Num, reg: nat)
    requires Indexed(c)
  {
    match x
    case Known(k) => k < Pow2(reg)
    case Wire(lc, w) => w <= reg && Below(lc, c.next) && InRange(p, c, lc, w)
  }

  ghost function NumVal(p: Prime, x: Num, s: Assignment): nat {
    match x case Known(k) => k case Wire(lc, _) => Value(p, lc, s)
  }

  lemma {:induction false} BitLengthBounds(k: nat, reg: nat)
    ensures k < Pow2(BitLength(k)) && (k < Pow2(reg) ==> BitLength(k) <= reg)
  {
    if k > 0 {
      BitLengthBounds(k / 2, if reg > 0 then reg - 1 else 0);
    }
  }

  /** An operand's form and width. */
  lemma NumParts(p: Prime, c: Circuit, x: Num, reg: nat)
    requires p > Pow2(253) && Indexed(c) && OkNum(p, c, x, reg) && reg <= 252
    ensures Below(LcOf(x), c.next) && WidthOf(x) <= reg && InRange(p, c, LcOf(x), WidthOf(x))
    ensures forall s: Assignment :: NumVal(p, x, s) == Value(p, LcOf(x), s)
  {
    if x.Known? {
      BitLengthBounds(x.k, reg);
      Pow2Mono(reg, 253);
      forall s: Assignment
        ensures Value(p, Const(x.k), s) == x.k
      {
        ModSmall(x.k, p);
      }
    }
  }

  /** The arms a step is in: the literal that takes each, and the guard's form once it was needed. */
  datatype Arm = Arm(lit: Lc, made: Option<Lc>)

  /** Every enclosing literal is 1. */
  ghost predicate AllTaken(p: Prime, arms: seq<Arm>, s: Assignment) {
    forall i :: 0 <= i < |arms| ==> Value(p, arms[i].lit, s) == 1
  }

  ghost predicate OkCache(p: Prime, c: Circuit, cache: map<(Lc, nat), seq<Lc>>)
    requires Indexed(c)
  {
    forall k :: k in cache ==>
      |cache[k]| == k.1 && AllBelow(cache[k], c.next) && PlainBits(cache[k]) && Decomposed(p, c, k.0, cache[k])
      && InRange(p, c, k.0, k.1)
  }

  /** In every solution, `bits` are the bits of `x`. */
  ghost predicate Decomposed(p: Prime, c: Circuit, x: Lc, bits: seq<Lc>)
    requires Indexed(c)
  {
    forall s: Assignment :: Meets(p, c, s) ==> AreBitsOf(p, bits, Value(p, x, s), s)
  }

  /** The guard of arm `i` is the product of the literals up to it. */
  ghost predicate IsGuard(p: Prime, c: Circuit, arms: seq<Arm>, g: Lc)
    requires Indexed(c)
  {
    Below(g, c.next) && forall s: Assignment :: Meets(p, c, s) ==>
      Value(p, g, s) == if AllTaken(p, arms, s) then 1 else 0
  }

  /** Arm `i` and the arms around it. */
  function Outer(arms: seq<Arm>, i: nat): seq<Arm>
    requires i < |arms|
  {
    arms[..i + 1]
  }

  ghost predicate OkArms(p: Prime, c: Circuit, arms: seq<Arm>)
    requires Indexed(c)
  {
    && (forall i :: 0 <= i < |arms| ==> Below(arms[i].lit, c.next) && IsBit(p, c, arms[i].lit))
    && (forall i :: 0 <= i < |arms| && arms[i].made.Some? ==> IsGuard(p, c, Outer(arms, i), arms[i].made.value))
    && (forall i, j :: 0 <= i < j < |arms| && arms[j].made.Some? ==> arms[i].made.Some?)
  }

  ghost predicate OkBounds(p: Prime, c: Circuit, width: map<nat, nat>, max: map<nat, nat>)
    requires Indexed(c)
  {
    && (forall v :: v in width ==> VarBelow(p, c, v, Pow2(width[v])))
    && (forall v :: v in max ==> VarBelow(p, c, v, max[v] + 1))
  }

  lemma BoundsStay(p: Prime, c: Circuit, d: Circuit, width: map<nat, nat>, max: map<nat, nat>)
    requires Indexed(c) && Indexed(d) && Tightens(p, c, d) && OkBounds(p, c, width, max)
    ensures OkBounds(p, d, width, max)
  {
    hide Meets;
    forall v, bound | VarBelow(p, c, v, bound)
      ensures VarBelow(p, d, v, bound)
    {
    }
  }

  lemma CacheStays(p: Prime, c: Circuit, d: Circuit, cache: map<(Lc, nat), seq<Lc>>)
    requires Indexed(c) && Indexed(d) && c.next <= d.next && Tightens(p, c, d) && OkCache(p, c, cache)
    ensures OkCache(p, d, cache)
  {
    hide Meets, AreBitsOf, Value;
    forall k | k in cache
      ensures AllBelow(cache[k], d.next) && Decomposed(p, d, k.0, cache[k]) && InRange(p, d, k.0, k.1)
    {
    }
  }

  lemma ArmsStay(p: Prime, c: Circuit, d: Circuit, arms: seq<Arm>)
    requires Indexed(c) && Indexed(d) && c.next <= d.next && Tightens(p, c, d) && OkArms(p, c, arms)
    ensures OkArms(p, d, arms)
  {
    hide Meets, AllTaken;
    forall i | 0 <= i < |arms|
      ensures Below(arms[i].lit, d.next) && IsBit(p, d, arms[i].lit)
      ensures arms[i].made.Some? ==> IsGuard(p, d, Outer(arms, i), arms[i].made.value)
    {
      assert arms[i].made.Some? ==> IsGuard(p, c, Outer(arms, i), arms[i].made.value);
    }
  }

  lemma NumStays(p: Prime, c: Circuit, d: Circuit, x: Num, reg: nat)
    requires Indexed(c) && Indexed(d) && c.next <= d.next && Tightens(p, c, d) && OkNum(p, c, x, reg)
    ensures OkNum(p, d, x, reg)
  {
    hide Meets;
  }

  /** A step that adds new variables and nothing but their hinted values: no more than one each. */
  ghost predicate Forces(p: Prime, c: Circuit, d: Circuit)
    requires Indexed(c) && Indexed(d)
  {
    c.next <= d.next && Extends(c, d) && forall s: Assignment :: AddsAt(p, c, d, s, true)
  }

  /** What a step without requirements does: new variables, each with exactly one value in every earlier solution. */
  ghost predicate Pinned(p: Prime, c: Circuit, d: Circuit)
    requires Indexed(c) && Indexed(d)
  {
    Forces(p, c, d) && forall s: Assignment :: Meets(p, c, s) ==> Completes(p, c, d, s)
  }

  lemma PinnedSelf(p: Prime, c: Circuit)
    requires Indexed(c)
    ensures Pinned(p, c, c)
  {
    AddsNothing(p, c);
    forall s: Assignment | Meets(p, c, s)
      ensures Completes(p, c, c, s)
    {
      CompletesSelf(p, c, s);
    }
  }

  lemma PinnedTrans(p: Prime, c: Circuit, d: Circuit, e: Circuit)
    requires Indexed(c) && Indexed(d) && Indexed(e) && Pinned(p, c, d) && Pinned(p, d, e)
    ensures Pinned(p, c, e)
  {
    hide Indexed, Meets, Hinted;
    ForcesTrans(p, c, d, e);
    forall s: Assignment | Meets(p, c, s)
      ensures Completes(p, c, e, s)
    {
      assert Completes(p, c, d, s);
      var t: Assignment :| Meets(p, d, t) && SameBelow(s, t, c.next);
      CompletesTrans(p, c, d, e, s, t);
    }
  }

  lemma ForcesTrans(p: Prime, c: Circuit, d: Circuit, e: Circuit)
    requires Indexed(c) && Indexed(d) && Indexed(e) && Forces(p, c, d) && Forces(p, d, e)
    ensures Forces(p, c, e)
  {
    hide Indexed, Meets, Hinted, Extends;
    ExtendsTrans(c, d, e);
    forall s: Assignment
      ensures AddsAt(p, c, e, s, true)
    {
      AddsTrans(p, c, d, e, s, true, true);
    }
  }

  /** No assignment is a solution. */
  ghost predicate Unsolvable(p: Prime, c: Circuit)
    requires Indexed(c)
  {
    forall s: Assignment :: !Meets(p, c, s)
  }

  /** Nothing solves a circuit whose pinned extension nothing solves. */
  lemma UnsolvableBefore(p: Prime, c: Circuit, d: Circuit)
    requires Indexed(c) && Indexed(d) && Pinned(p, c, d) && Unsolvable(p, d)
    ensures Unsolvable(p, c)
  {
    hide Indexed, Meets, Hinted, Extends;
    forall s: Assignment
      ensures !Meets(p, c, s)
    {
      assert Meets(p, c, s) ==> Completes(p, c, d, s);
    }
  }

  lemma PinnedTightens(p: Prime, c: Circuit, d: Circuit)
    requires Indexed(c) && Indexed(d) && Pinned(p, c, d)
    ensures Tightens(p, c, d) && c.next <= d.next
  {
    hide Indexed, Meets, Hinted, Extends, Completes;
    ForcesTightens(p, c, d);
  }

  lemma ForcesTightens(p: Prime, c: Circuit, d: Circuit)
    requires Indexed(c) && Indexed(d) && Forces(p, c, d)
    ensures Tightens(p, c, d) && c.next <= d.next
  {
    hide Indexed, Meets, Hinted, Extends;
    forall s: Assignment | Meets(p, d, s)
      ensures Meets(p, c, s)
    {
      assert AddsAt(p, c, d, s, true);
    }
  }

  // ----- what the operations' forms are -----

  /** `r` is the answer of `op`, in every solution. */
  ghost predicate Computes(p: Prime, c: Circuit, op: IntOp, reg: nat, x: Num, y: Num, r: Num)
    requires Indexed(c) && reg > 0
  {
    && OkNum(p, c, r, reg)
    && forall s: Assignment :: Meets(p, c, s) ==> NumVal(p, r, s) == WordVal(op, reg, NumVal(p, x, s), NumVal(p, y, s))
  }

  /** The low `reg` bits of `lc` are the answer of `op`. */
  ghost predicate Exact(p: Prime, c: Circuit, op: IntOp, reg: nat, x: Num, y: Num, lc: Lc)
    requires Indexed(c) && reg > 0
  {
    forall s: Assignment :: Meets(p, c, s) ==>
      Value(p, lc, s) % Pow2(reg) == WordVal(op, reg, NumVal(p, x, s), NumVal(p, y, s))
  }

  lemma LowComputes(p: Prime, c: Circuit, d: Circuit, op: IntOp, reg: nat, x: Num, y: Num, lc: Lc, r: Num)
    requires Indexed(c) && Indexed(d) && Tightens(p, c, d) && reg > 0
    requires Exact(p, c, op, reg, x, y, lc) && IsLow(p, d, lc, reg, r)
    ensures Computes(p, d, op, reg, x, y, r)
  {
    hide Indexed, Meets, Value, WordVal, NumVal, Pow2, IsPrime;
    forall s: Assignment | Meets(p, d, s)
      ensures NumVal(p, r, s) == WordVal(op, reg, NumVal(p, x, s), NumVal(p, y, s))
    {
      assert Meets(p, c, s);
    }
  }

  lemma BothInRange(p: Prime, c: Circuit, x: Num, y: Num, reg: nat, s: Assignment)
    requires p > Pow2(253) && Indexed(c) && OkNum(p, c, x, reg) && OkNum(p, c, y, reg) && reg <= 64 && Meets(p, c, s)
    ensures Comparable(p, None, reg, LcOf(x), LcOf(y), s)
    ensures NumVal(p, x, s) == Value(p, LcOf(x), s) < Pow2(WidthOf(x)) <= Pow2(reg)
    ensures NumVal(p, y, s) == Value(p, LcOf(y), s) < Pow2(WidthOf(y)) <= Pow2(reg)
  {
    hide Indexed, Meets, Value, Pow2, IsPrime;
    NumParts(p, c, x, reg);
    NumParts(p, c, y, reg);
    Pow2Mono(WidthOf(x), reg);
    Pow2Mono(WidthOf(y), reg);
  }

  /** A sum of forms whose values do not wrap. */
  lemma SumValue(p: Prime, x: Lc, y: Lc, s: Assignment)
    requires Value(p, x, s) + Value(p, y, s) < p
    ensures Value(p, Add(x, y), s) == Value(p, x, s) + Value(p, y, s)
  {
    hide IsPrime, Eval;
    CongMod(p, Eval(x, s));
    CongMod(p, Eval(y, s));
    CongAdd(p, Eval(x, s), Value(p, x, s), Eval(y, s), Value(p, y, s));
    ModSmall(Value(p, x, s) + Value(p, y, s), p);
  }

  lemma ScaleValue(p: Prime, x: Lc, k: nat, s: Assignment)
    requires k * Value(p, x, s) < p
    ensures Value(p, Scale(x, k), s) == k * Value(p, x, s)
  {
    hide IsPrime, Eval;
    CongMod(p, Eval(x, s));
    CongMul(p, k, k, Eval(x, s), Value(p, x, s));
    ModSmall(k * Value(p, x, s), p);
  }

  lemma Wide(p: Prime, w: nat)
    requires p > Pow2(253) && w <= 252
    ensures Pow2(w) < p
  {
    Pow2Mono(w, 253);
  }

  lemma SumForm(p: Prime, c: Circuit, x: Num, y: Num, reg: nat, w: nat)
    requires p > Pow2(253) && Indexed(c) && OkNum(p, c, x, reg) && OkNum(p, c, y, reg) && (reg == 32 || reg == 64)
    requires WidthOf(x) < w && WidthOf(y) < w
    requires w == (if WidthOf(x) > WidthOf(y) then WidthOf(x) else WidthOf(y)) + 1
    ensures var lc := Add(LcOf(x), LcOf(y));
      Below(lc, c.next) && InRange(p, c, lc, w) && w <= 65 && Exact(p, c, Plain(S.Add), reg, x, y, lc)
    ensures forall s: Assignment :: Meets(p, c, s) ==>
      Value(p, Add(LcOf(x), LcOf(y)), s) == NumVal(p, x, s) + NumVal(p, y, s)
  {
    hide Indexed, Meets, Value, Pow2, IsPrime, OkNum, NumVal, WordVal, Exact, BitLength;
    NumParts(p, c, x, reg);
    NumParts(p, c, y, reg);
    var lc := Add(LcOf(x), LcOf(y));
    forall s: Assignment | Meets(p, c, s)
      ensures Value(p, lc, s) == NumVal(p, x, s) + NumVal(p, y, s) < Pow2(w)
    {
      BothInRange(p, c, x, y, reg, s);
      Pow2Mono(WidthOf(x), w - 1);
      Pow2Mono(WidthOf(y), w - 1);
      PowDouble(w - 1);
      Wide(p, w);
      SumValue(p, LcOf(x), LcOf(y), s);
    }
    SumExact(p, c, x, y, reg, lc);
  }

  lemma SumExact(p: Prime, c: Circuit, x: Num, y: Num, reg: nat, lc: Lc)
    requires Indexed(c) && reg > 0
    requires forall s: Assignment :: Meets(p, c, s) ==> Value(p, lc, s) == NumVal(p, x, s) + NumVal(p, y, s)
    ensures Exact(p, c, Plain(S.Add), reg, x, y, lc)
  {
    hide Indexed, Meets, Value, Pow2, IsPrime, NumVal;
  }

  lemma SubNothing(p: Prime, c: Circuit, x: Num, reg: nat)
    requires Indexed(c) && OkNum(p, c, x, reg) && reg > 0
    ensures Computes(p, c, Plain(S.Sub), reg, x, Known(0), x)
  {
    hide Indexed, Meets, Value, Pow2, IsPrime;
    forall s: Assignment | Meets(p, c, s)
      ensures NumVal(p, x, s) == WordVal(Plain(S.Sub), reg, NumVal(p, x, s), 0)
    {
      if x.Wire? {
        Pow2Mono(x.width, reg);
      }
      ModSmall(NumVal(p, x, s), Pow2(reg));
    }
  }

  /** A step that is pinned on the solutions, and adds none, is pinned. */
  lemma PinnedFrom(p: Prime, c: Circuit, d: Circuit)
    requires Indexed(c) && Indexed(d) && c.next <= d.next && Extends(c, d) && Tightens(p, c, d)
    requires forall s: Assignment :: Meets(p, c, s) ==> AddsAt(p, c, d, s, true) && Completes(p, c, d, s)
    ensures Pinned(p, c, d)
  {
    hide Indexed, Meets, Hinted, Extends;
    forall s: Assignment
      ensures AddsAt(p, c, d, s, true)
    {
      if Meets(p, d, s) {
        assert Meets(p, c, s);
      }
    }
  }

  lemma SubComputes(p: Prime, c: Circuit, d: Circuit, x: Num, y: Num, reg: nat, lc: Lc)
    requires p > Pow2(253) && Indexed(c) && Indexed(d) && Tightens(p, c, d) && 0 < reg <= 64
    requires OkNum(p, c, x, reg) && OkNum(p, c, y, reg) && Below(lc, d.next)
    requires forall s: Assignment :: Comparable(p, None, reg, LcOf(x), LcOf(y), s) && Meets(p, d, s) ==>
               Value(p, lc, s) == (Value(p, LcOf(x), s) - Value(p, LcOf(y), s)) % Pow2(reg)
    ensures InRange(p, d, lc, reg) && Computes(p, d, Plain(S.Sub), reg, x, y, Wire(lc, reg))
  {
    hide Indexed, Meets, Value, Pow2, IsPrime, Comparable;
    forall s: Assignment | Meets(p, d, s)
      ensures Value(p, lc, s) == WordVal(Plain(S.Sub), reg, NumVal(p, x, s), NumVal(p, y, s)) < Pow2(reg)
    {
      assert Meets(p, c, s);
      BothInRange(p, c, x, y, reg, s);
    }
  }

  lemma BelowProduct(x: nat, y: nat, a: nat, b: nat)
    requires x < a && y < b
    ensures x * y < a * b
  {
    TimesMono(x, a - 1, y);
    TimesMono(y, b - 1, a - 1);
    assert (a - 1) * y == y * (a - 1);
    assert (b - 1) * (a - 1) == a * b - a - b + 1;
  }

  lemma ProductBound(x: nat, y: nat, m: nat, n: nat)
    requires x < Pow2(m) && y < Pow2(n)
    ensures x * y < Pow2(m + n)
  {
    hide Pow2;
    Pow2Add(m, n);
    BelowProduct(x, y, Pow2(m), Pow2(n));
  }

  /** `lc` is the product of the operands, in every solution. */
  ghost predicate IsProduct(p: Prime, x: Num, y: Num, lc: Lc, s: Assignment) {
    if x.Known? then lc == Scale(LcOf(y), x.k)
    else if y.Known? then lc == Scale(LcOf(x), y.k)
    else Cong(p, Eval(lc, s), Eval(LcOf(x), s) * Eval(LcOf(y), s))
  }

  lemma ProductForm(p: Prime, c: Circuit, x: Num, y: Num, reg: nat, lc: Lc, w: nat)
    requires p > Pow2(253) && Indexed(c) && OkNum(p, c, x, reg) && OkNum(p, c, y, reg) && (reg == 32 || reg == 64)
    requires w == WidthOf(x) + WidthOf(y) && forall s: Assignment :: Meets(p, c, s) ==> IsProduct(p, x, y, lc, s)
    ensures InRange(p, c, lc, w) && w <= 128 && Exact(p, c, Plain(S.Mul), reg, x, y, lc)
  {
    hide Indexed, Meets, Value, Pow2, IsPrime, OkNum, IsProduct;
    NumParts(p, c, x, reg);
    NumParts(p, c, y, reg);
    forall s: Assignment | Meets(p, c, s)
      ensures Value(p, lc, s) == NumVal(p, x, s) * NumVal(p, y, s) < Pow2(w)
    {
      BothInRange(p, c, x, y, reg, s);
      ProductBound(NumVal(p, x, s), NumVal(p, y, s), WidthOf(x), WidthOf(y));
      Wide(p, w);
      ProductValue(p, x, y, lc, s);
    }
  }

  lemma ProductValue(p: Prime, x: Num, y: Num, lc: Lc, s: Assignment)
    requires IsProduct(p, x, y, lc, s) && NumVal(p, x, s) * NumVal(p, y, s) < p
    requires NumVal(p, x, s) == Value(p, LcOf(x), s) && NumVal(p, y, s) == Value(p, LcOf(y), s)
    ensures Value(p, lc, s) == NumVal(p, x, s) * NumVal(p, y, s)
  {
    hide IsPrime, Eval;
    if x.Known? {
      ScaleValue(p, LcOf(y), x.k, s);
    } else if y.Known? {
      assert y.k * NumVal(p, x, s) == NumVal(p, x, s) * y.k;
      ScaleValue(p, LcOf(x), y.k, s);
    } else {
      var (u, v) := (Eval(LcOf(x), s), Eval(LcOf(y), s));
      CongMod(p, u);
      CongMod(p, v);
      CongMul(p, u, u % p, v, v % p);
      ModSmall((u % p) * (v % p), p);
    }
  }

  lemma BelowMentions(x: Lc, n: nat)
    requires Below(x, n)
    ensures forall v: nat :: Mentions(x, v) ==> v < n
  {
  }

  /** A form that is a sum of proven bits has them as its bits, in every solution. */
  lemma SumDecomposes(p: Prime, c: Circuit, x: Lc, bits: seq<Lc>)
    requires p > Pow2(253) && Indexed(c) && |bits| <= 253 && forall i :: 0 <= i < |bits| ==> IsBit(p, c, bits[i])
    requires forall s: Assignment :: Eval(x, s) == Eval(Recomposed(bits), s)
    ensures Decomposed(p, c, x, bits) && InRange(p, c, x, |bits|)
  {
    hide Meets, Eval, Value, IsPrime, Pow2, Recomposed, AreBitsOf;
    Pow2Mono(|bits|, 253);
    forall s: Assignment | Meets(p, c, s)
      ensures AreBitsOf(p, bits, Value(p, x, s), s) && Value(p, x, s) < Pow2(|bits|)
    {
      forall i | 0 <= i < |bits|
        ensures Value(p, bits[i], s) <= 1
      {
        assert IsBit(p, c, bits[i]);
      }
      CongSelf(p, Eval(x, s));
      SumOfBits(p, x, bits, s);
    }
  }

  function ConstBits(k: nat, n: nat): (r: seq<Lc>)
    ensures |r| == n && forall i :: 0 <= i < n ==> r[i] == Const(BitOf(k, i))
  {
    seq<Lc>(n, i requires 0 <= i < n => Const(BitOf(k, i)))
  }

  /** A step that adds exactly the proof that `x` is below `2^n`, and can be run. */
  ghost predicate Ranged(p: Prime, c: Circuit, d: Circuit, x: Lc, n: nat)
    requires Indexed(c) && Indexed(d)
  {
    && c.next <= d.next && Extends(c, d) && NoDivision(c, d)
    && forall s: Assignment :: AddsAt(p, c, d, s, Value(p, x, s) < Pow2(n))
  }

  lemma RangedPinned(p: Prime, c: Circuit, d: Circuit, x: Lc, n: nat)
    requires Shaped(c) && Shaped(d) && Ranged(p, c, d, x, n) && InRange(p, c, x, n)
    ensures Pinned(p, c, d)
  {
    hide Indexed, Ordered, Meets, Hinted, Extends, Value, Pow2, NoDivision, Completes;
    forall s: Assignment
      ensures AddsAt(p, c, d, s, true)
    {
      assert AddsAt(p, c, d, s, Value(p, x, s) < Pow2(n));
    }
    AllComplete(p, c, d);
  }

  lemma NeverInRange(p: Prime, c: Circuit, x: Lc, n: nat)
    requires Indexed(c) && InRange(p, c, x, n) && forall s: Assignment :: Value(p, x, s) >= Pow2(n)
    ensures Unsolvable(p, c)
  {
    hide Indexed, Meets, Value, Pow2;
    forall s: Assignment
      ensures !Meets(p, c, s)
    {
      assert Value(p, x, s) >= Pow2(n);
    }
  }

  lemma ConstRange(p: Prime, c: Circuit, x: Lc, n: nat)
    requires Indexed(c) && IsConst(x)
    ensures forall s: Assignment :: Value(p, x, s) == x.constant % p
  {
    forall s: Assignment
      ensures Value(p, x, s) == x.constant % p
    {
      ConstEval(x, s);
    }
  }

  lemma RangeStays(p: Prime, c: Circuit, d: Circuit, x: Lc, w: nat)
    requires Indexed(c) && Indexed(d) && Pinned(p, c, d) && InRange(p, c, x, w)
    ensures InRange(p, d, x, w) && c.next <= d.next
  {
    hide Indexed, Meets, Value;
    PinnedTightens(p, c, d);
  }

  /** `r` is the low `reg` bits of `x`. */
  ghost predicate IsLow(p: Prime, c: Circuit, x: Lc, reg: nat, r: Num)
    requires Indexed(c)
  {
    OkNum(p, c, r, reg) && forall s: Assignment :: Meets(p, c, s) ==> NumVal(p, r, s) == Value(p, x, s) % Pow2(reg)
  }

  lemma LowConst(p: Prime, c: Circuit, x: Lc, w: nat, reg: nat)
    requires p > Pow2(253) && Indexed(c) && IsConst(x) && IsI64(x.constant) && InRange(p, c, x, w) && w <= 252
    requires reg == 32 || reg == 64
    ensures var k := x.constant % Pow2(64); IsLow(p, c, x, reg, Known(if reg == 32 then k % Pow2(32) else k))
  {
    hide Meets, IsPrime, Pow2, Eval, Value;
    var k := x.constant % Pow2(64);
    LowMod(x.constant);
    forall s: Assignment | Meets(p, c, s)
      ensures Value(p, x, s) % Pow2(32) == k % Pow2(32) && Value(p, x, s) % Pow2(64) == k
    {
      assert Value(p, x, s) < Pow2(w);
      ConstInRange(p, x, w, s);
    }
  }

  lemma LowMod(x: int)
    ensures x % Pow2(64) % Pow2(32) == x % Pow2(32)
  {
    Pow2Add(32, 32);
    ModMod(x, Pow2(32));
  }

  lemma ModMod(x: int, w: nat)
    requires w > 0
    ensures x % (w * w) % w == x % w
  {
    var (q, r) := (x / (w * w), x % (w * w));
    assert x == q * (w * w) + r;
    assert q * (w * w) == (q * w) * w;
    var (a, z) := (r / w, r % w);
    assert x == (q * w + a) * w + z;
    ModUnique(x, w, q * w + a, z);
  }

  /** A constant whose residue is small is that residue, not a negative number. */
  lemma ConstInRange(p: Prime, x: Lc, w: nat, s: Assignment)
    requires p > Pow2(253) && IsConst(x) && IsI64(x.constant) && Value(p, x, s) < Pow2(w) && w <= 252
    ensures x.constant >= 0 && Value(p, x, s) == x.constant
  {
    hide IsPrime, Pow2;
    ConstEval(x, s);
    Pow2Mono(w, 252);
    TwoTo64();
    Pow2Mono(64, 252);
    assert Pow2(253) == 2 * Pow2(252) by { PowDouble(252); }
    if x.constant >= 0 {
      ModSmall(x.constant, p);
    } else {
      ModUnique(x.constant, p, -1, x.constant + p);
    }
  }

  lemma TwoTo64()
    ensures Pow2(64) == 0x1_0000_0000_0000_0000
  {
    TwoTo32Here();
    Pow2Add(32, 32);
  }

  lemma NarrowRange(p: Prime, c: Circuit, f: Facts, x: Lc, w: nat, n: nat)
    requires p > Pow2(253) && Indexed(c) && OkFacts(p, c, f) && Ending(f) && Below(x, n) && InRange(p, c, x, w)
    ensures var narrow := match LcMax(f, x, n) case None => w case Some(m) => if BitLength(m) < w then BitLength(m)
      else w;
      narrow <= w && InRange(p, c, x, narrow)
  {
    hide Meets, IsPrime, Pow2, Eval, OkFacts, LcMax, Value, Ending;
    match LcMax(f, x, n) {
      case None =>
      case Some(m) =>
        BitLengthBounds(m, 0);
        forall s: Assignment | Meets(p, c, s)
          ensures Value(p, x, s) < Pow2(BitLength(m))
        {
          LcMaxSound(p, c, f, x, n, s);
        }
    }
  }

  lemma WholeIsLow(p: Prime, c: Circuit, x: Lc, w: nat, reg: nat)
    requires Indexed(c) && Below(x, c.next) && InRange(p, c, x, w) && w <= reg
    ensures IsLow(p, c, x, reg, Wire(x, w))
  {
    hide Meets, IsPrime, Value;
    Pow2Mono(w, reg);
    forall s: Assignment | Meets(p, c, s)
      ensures Value(p, x, s) == Value(p, x, s) % Pow2(reg)
    {
      ModSmall(Value(p, x, s), Pow2(reg));
    }
  }

  lemma SplitIsLow(p: Prime, c: Circuit, f: Facts, x: Lc, reg: nat, n: nat, low: Lc)
    requires p > Pow2(253) && Indexed(c) && OkFacts(p, c, f) && Ending(f) && Below(x, n) && n == c.next
    requires SplitLc(f, x, reg, n).Some? && SplitLc(f, x, reg, n).value.0 == low
    ensures Below(low, c.next) && InRange(p, c, low, reg) && IsLow(p, c, x, reg, Wire(low, reg))
  {
    hide Meets, IsPrime, Pow2, Eval, OkFacts, LcMax, Value, Ending, SplitLc;
    SplitBelowNext(f, x, reg, n);
    forall s: Assignment | Meets(p, c, s)
      ensures Value(p, low, s) == Value(p, x, s) % Pow2(reg)
    {
      SplitLcSound(p, c, f, x, reg, n, s);
    }
  }

  lemma SplitBelowNext(f: Facts, x: Lc, k: nat, n: nat)
    requires Ending(f) && Below(x, n) && SplitLc(f, x, k, n).Some?
    ensures var (low, high) := SplitLc(f, x, k, n).value; Below(low, n) && Below(high, n)
  {
    LowHigh(x.terms, Pow2(k), n);
  }

  lemma BitsAreLow(p: Prime, c: Circuit, x: Lc, w: nat, reg: nat, bits: seq<Lc>)
    requires p > Pow2(253) && Indexed(c) && InRange(p, c, x, w) && reg <= w <= 252 && |bits| == w
    requires AllBelow(bits, c.next) && Decomposed(p, c, x, bits)
    ensures var low := Recomposed(bits[..reg]);
      Below(low, c.next) && InRange(p, c, low, reg) && IsLow(p, c, x, reg, Wire(low, reg))
  {
    hide Meets, IsPrime, Pow2, Eval, Value, AreBitsOf, Recomposed;
    Pow2Mono(w, 253);
    RecomposedBelow(bits[..reg], c.next);
    forall s: Assignment | Meets(p, c, s)
      ensures Value(p, Recomposed(bits[..reg]), s) == Value(p, x, s) % Pow2(reg)
    {
      RecomposedParts(p, Value(p, x, s), bits, reg, s);
    }
  }

  lemma RecomposedBelow(bits: seq<Lc>, n: nat)
    requires AllBelow(bits, n)
    ensures Below(Recomposed(bits), n)
  {
    WeighBelow(bits, 0, n);
  }

  lemma ConstDecomposed(p: Prime, c: Circuit, x: Lc, bits: seq<Lc>, n: nat)
    requires Indexed(c) && IsConst(x) && bits == ConstBits(x.constant % p, n)
    ensures AllBelow(bits, c.next) && PlainBits(bits) && Decomposed(p, c, x, bits)
  {
    hide Meets, IsPrime, BitOf;
    forall s: Assignment
      ensures AreBitsOf(p, bits, Value(p, x, s), s)
    {
      ConstEval(x, s);
      forall i | 0 <= i < n
        ensures Value(p, bits[i], s) == BitOf(Value(p, x, s), i)
      {
        ModSmall(BitOf(x.constant % p, i), p);
      }
    }
  }

  lemma WidthLearned(p: Prime, c: Circuit, width: map<nat, nat>, max: map<nat, nat>, v: nat, w: nat,
                     more: map<nat, nat>)
    requires Indexed(c) && OkBounds(p, c, width, max) && InRange(p, c, Var(v), w)
    requires more == width[v := if v in width && width[v] <= w then width[v] else w]
    ensures OkBounds(p, c, more, max)
  {
    hide Meets, Pow2;
    forall s: Assignment | Meets(p, c, s)
      ensures s(v) % p < Pow2(w)
    {
      assert Value(p, Var(v), s) < Pow2(w);
    }
    assert VarBelow(p, c, v, Pow2(w));
  }
}
