/**
 * Native integers as constraints. An operand is a constant, or a form proven below a power of two; every
 * operation's hinted variables have one satisfying value, and its result is the machine's answer.
 */
module Integers {
  import opened Words
  import opened Fields
  import opened Linear
  import opened Circuits
  import opened Solving
  import opened Bits
  import opened Builder
  import opened Intervals
  import opened Recompose
  import opened WordOps
  import opened Nums
  import opened NumBits
  import opened NumShifts
  import opened NumDivision
  import opened NumPowers
  import opened NumOrder
  import S = SymValues

  class Integers {
    const b: Builder
    var width: map<nat, nat>
    var max: map<nat, nat>
    var cache: map<(Lc, nat), seq<Lc>>
    var arms: seq<Arm>

    constructor (b: Builder)
      requires b.Valid()
      ensures Valid() && this.b == b && arms == []
    {
      this.b := b;
      width, max, cache, arms := map[], map[], map[], [];
    }

    ghost predicate Valid()
      reads this, b
    {
      && b.Valid() && OkBounds(b.p, b.Snap(), width, max) && OkCache(b.p, b.Snap(), cache)
      && OkArms(b.p, b.Snap(), arms)
    }

    function Proven(): Facts
      reads this, b
    {
      Facts(b.booleans, b.computed, width, max)
    }

    lemma FactsHold()
      requires Valid()
      ensures OkFacts(b.p, b.Snap(), Proven()) && Ending(Proven())
    {
      hide Ordered, Indexed, Meets, IsBit, Pow2, IsPrime;
      forall v | v in b.computed
        ensures OkBits(b.p, b.Snap(), v, b.computed[v])
      {
      }
    }

    /** The builder went on from `c`: what was remembered still holds. */
    lemma Kept(c: Circuit)
      requires b.Valid() && Indexed(c) && c.next <= b.next && Tightens(b.p, c, b.Snap())
      requires OkBounds(b.p, c, width, max) && OkCache(b.p, c, cache) && OkArms(b.p, c, arms)
      ensures Valid()
    {
      hide Ordered, Indexed, OkCaches, Meets, IsPrime, Pow2;
      BoundsStay(b.p, c, b.Snap(), width, max);
      CacheStays(b.p, c, b.Snap(), cache);
      ArmsStay(b.p, c, b.Snap(), arms);
    }

    /** A wire for `x`; a bare variable's width is remembered. */
    method NewWire(x: Lc, w: nat) returns (r: Num)
      requires Valid() && Below(x, b.next) && InRange(b.p, b.Snap(), x, w)
      modifies this`width
      ensures Valid() && r == Wire(x, w)
    {
      hide Ordered, Indexed, OkCaches, Meets, IsPrime, Pow2, Eval;
      if |x.terms| == 1 && x == Var(x.terms[0].v) {
        var v := x.terms[0].v;
        var was := width;
        width := width[v := if v in width && width[v] <= w then width[v] else w];
        WidthLearned(b.p, b.Snap(), was, max, v, w, width);
      }
      r := Wire(x, w);
    }

    // ----- bits -----

    /** Bits of `x` that are already proven: it is a sum of proven bits, or low bits of a decomposition. */
    method BitSumShortcut(x: Lc, n: nat) returns (bits: Option<seq<Lc>>)
      requires Valid() && Below(x, b.next) && !IsConst(x) && n <= 253
      ensures bits.Some? ==>
        |bits.value| == n && AllBelow(bits.value, b.next) && PlainBits(bits.value)
        && Decomposed(b.p, b.Snap(), x, bits.value)
      ensures bits.Some? ==> InRange(b.p, b.Snap(), x, n)
    {
      hide Ordered, Indexed, Meets, IsPrime, Pow2, Eval, AreBitsOf, Mentions;
      var vars := BitSumMatch(x, n, b.booleans);
      if vars.Some? {
        var forms := VarForms(vars.value);
        BelowMentions(x, b.next);
        forall i | 0 <= i < n
          ensures Below(forms[i], b.next) && IsBit(b.p, b.Snap(), forms[i])
        {
          assert Mentions(x, vars.value[i]) && vars.value[i] < b.next;
        }
        SumDecomposes(b.p, b.Snap(), x, forms);
        return Some(forms);
      }
      var v := x.terms[|x.terms| - 1].v;
      if v !in b.computed || |b.computed[v]| < n {
        return None;
      }
      var low := b.computed[v][..n];
      if Sub(x, Recomposed(low)) != Const(0) {
        return None;
      }
      assert OkBits(b.p, b.Snap(), v, b.computed[v]);
      forall s: Assignment
        ensures Eval(x, s) == Eval(Recomposed(low), s)
      {
        assert Eval(Sub(x, Recomposed(low)), s) == 0;
      }
      SumDecomposes(b.p, b.Snap(), x, low);
      bits := Some(low);
    }

    /** Bits of `x` proven before, by anything. */
    method KnownBits(x: Lc, n: nat) returns (bits: Option<seq<Lc>>)
      requires Valid() && Below(x, b.next) && n <= 253
      ensures bits.Some? ==>
        |bits.value| == n && AllBelow(bits.value, b.next) && PlainBits(bits.value)
        && Decomposed(b.p, b.Snap(), x, bits.value)
      ensures bits.Some? ==> InRange(b.p, b.Snap(), x, n)
    {
      hide Ordered, Indexed, Meets, IsPrime, Pow2, Eval, AreBitsOf, Mentions, OkCaches;
      if IsConst(x) {
        return None;
      }
      bits := BitSumShortcut(x, n);
      if bits.None? && (x, n) in cache {
        bits := Some(cache[(x, n)]);
      }
    }

    /** The `n` bits of `x`, proving it below `2^n`; a wider constant is an internal error. */
    method RangeBits(x: Lc, n: nat) returns (bits: Option<seq<Lc>>)
      requires Valid() && Below(x, b.next) && n <= 253
      modifies this`cache, b
      ensures Valid() && if bits.Some? then Ranged(b.p, old(b.Snap()), b.Snap(), x, n) else b.Snap() == old(b.Snap())
      ensures bits.Some? ==> |bits.value| == n && AllBelow(bits.value, b.next) && PlainBits(bits.value)
                             && Decomposed(b.p, b.Snap(), x, bits.value) && InRange(b.p, b.Snap(), x, n)
      ensures bits.None? ==> IsConst(x) && forall s: Assignment :: Value(b.p, x, s) >= Pow2(n)
    {
      hide Ordered, Indexed, Meets, Hinted, IsPrime, Pow2, Eval, AreBitsOf, OkCaches, Extends, Completes, NoDivision,
        Unsolvable;
      ghost var c := b.Snap();
      AddsNothing(b.p, c);
      NoneAdded(c, c);
      if IsConst(x) {
        ConstRange(b.p, c, x, n);
        if x.constant % b.p >= Pow2(n) {
          return None;
        }
        var forms := ConstBits(x.constant % b.p, n);
        ConstDecomposed(b.p, c, x, forms, n);
        return Some(forms);
      }
      bits := KnownBits(x, n);
      if bits.Some? {
        return;
      }
      var forms := b.DecomposeBits(x, n, None);
      forall s: Assignment
        ensures AddsAt(b.p, c, b.Snap(), s, Value(b.p, x, s) < Pow2(n))
        ensures Meets(b.p, b.Snap(), s) ==> AreBitsOf(b.p, forms, Value(b.p, x, s), s) && Meets(b.p, c, s)
      {
        assert AddsAt(b.p, c, b.Snap(), s, Gated(b.p, None, x, s) < Pow2(n));
      }
      Kept(c);
      cache := cache[(x, n) := forms];
      bits := Some(forms);
    }

    /** The `n` bits of `x`, which is known to be below `2^n`. */
    method BitsOf(x: Lc, n: nat) returns (bits: Option<seq<Lc>>)
      requires Valid() && Below(x, b.next) && InRange(b.p, b.Snap(), x, n) && n <= 253
      modifies this`cache, b
      ensures Valid() && Pinned(b.p, old(b.Snap()), b.Snap())
      ensures bits.Some? ==> |bits.value| == n && AllBelow(bits.value, b.next) && PlainBits(bits.value)
                             && Decomposed(b.p, b.Snap(), x, bits.value)
      ensures bits.None? ==> IsConst(x) && Unsolvable(b.p, old(b.Snap()))
    {
      hide Ordered, Indexed, Meets, Hinted, IsPrime, Pow2, Eval, AreBitsOf, OkCaches, Extends, Value, Completes,
        NoDivision, Unsolvable;
      ghost var c := b.Snap();
      bits := RangeBits(x, n);
      if bits.None? {
        PinnedSelf(b.p, c);
        NeverInRange(b.p, c, x, n);
      } else {
        RangedPinned(b.p, c, b.Snap(), x, n);
      }
    }

    // ----- results -----

    /** A wire for the low `reg` bits of `x`, which is below `2^w`. */
    method IntResult(x: Lc, w: nat, reg: nat) returns (r: Option<Num>)
      requires Valid() && Below(x, b.next) && InRange(b.p, b.Snap(), x, w) && w <= 252 && (reg == 32 || reg == 64)
      modifies this`width, this`cache, b
      ensures Valid() && Pinned(b.p, old(b.Snap()), b.Snap())
      ensures r.Some? ==> IsLow(b.p, b.Snap(), x, reg, r.value)
      ensures r.None? ==> IsConst(x) && Unsolvable(b.p, old(b.Snap()))
    {
      hide Ordered, Indexed, Meets, Hinted, IsPrime, Pow2, Eval, AreBitsOf, OkCaches, Extends, LcMax, Value, SplitLc,
        Completes, NoDivision, Unsolvable;
      ghost var c := b.Snap();
      PinnedSelf(b.p, c);
      FactsHold();
      if IsConst(x) && IsI64(x.constant) {
        var k := x.constant % Pow2(64);
        LowConst(b.p, c, x, w, reg);
        return Some(Known(if reg == 32 then k % Pow2(32) else k));
      }
      var bound := LcMax(Proven(), x, b.next);
      var narrow := match bound case None => w case Some(m) => if BitLength(m) < w then BitLength(m) else w;
      NarrowRange(b.p, c, Proven(), x, w, b.next);
      if narrow <= reg {
        var wire := NewWire(x, narrow);
        WholeIsLow(b.p, c, x, narrow, reg);
        return Some(wire);
      }
      var split := SplitLc(Proven(), x, reg, b.next);
      if split.Some? {
        SplitIsLow(b.p, c, Proven(), x, reg, b.next, split.value.0);
        var wire := NewWire(split.value.0, reg);
        return Some(wire);
      }
      var bits := BitsOf(x, narrow);
      if bits.None? {
        return None;
      }
      var low := Recomposed(bits.value[..reg]);
      RangeStays(b.p, c, b.Snap(), x, narrow);
      BitsAreLow(b.p, b.Snap(), x, narrow, reg, bits.value);
      var wire := NewWire(low, reg);
      r := Some(wire);
    }

    // ----- operations -----

    /** The low bits of a form that is the exact answer. */
    method Answer(op: IntOp, reg: nat, x: Num, y: Num, lc: Lc, w: nat) returns (r: Option<Num>)
      requires Valid() && (reg == 32 || reg == 64) && Below(lc, b.next) && InRange(b.p, b.Snap(), lc, w) && w <= 252
      requires Exact(b.p, b.Snap(), op, reg, x, y, lc)
      modifies this`width, this`cache, b
      ensures Valid() && Pinned(b.p, old(b.Snap()), b.Snap())
      ensures r.Some? ==> Computes(b.p, b.Snap(), op, reg, x, y, r.value)
      ensures r.None? ==> Unsolvable(b.p, old(b.Snap()))
    {
      hide Ordered, Indexed, Meets, Hinted, IsPrime, Pow2, Eval, AreBitsOf, OkCaches, Extends, LcMax, Value, SplitLc,
        WordVal, OkNum, NumVal, Completes, NoDivision, Unsolvable;
      ghost var c := b.Snap();
      r := IntResult(lc, w, reg);
      PinnedTightens(b.p, c, b.Snap());
      if r.Some? {
        LowComputes(b.p, c, b.Snap(), op, reg, x, y, lc, r.value);
      }
    }

    method AddInts(reg: nat, x: Num, y: Num) returns (r: Option<Num>)
      requires Valid() && (reg == 32 || reg == 64) && OkNum(b.p, b.Snap(), x, reg) && OkNum(b.p, b.Snap(), y, reg)
      modifies this`width, this`cache, b
      ensures Valid() && Pinned(b.p, old(b.Snap()), b.Snap())
      ensures r.Some? ==> Computes(b.p, b.Snap(), Plain(S.Add), reg, x, y, r.value)
      ensures r.None? ==> Unsolvable(b.p, old(b.Snap()))
    {
      hide Ordered, Indexed, Meets, Hinted, IsPrime, Pow2, Eval, AreBitsOf, OkCaches, Extends, LcMax, Value, SplitLc,
        WordVal, OkNum, NumVal, Completes, NoDivision, Unsolvable;
      var w := (if WidthOf(x) > WidthOf(y) then WidthOf(x) else WidthOf(y)) + 1;
      SumForm(b.p, b.Snap(), x, y, reg, w);
      r := Answer(Plain(S.Add), reg, x, y, Add(LcOf(x), LcOf(y)), w);
    }

    method SubInts(reg: nat, x: Num, y: Num) returns (r: Num)
      requires Valid() && (reg == 32 || reg == 64) && OkNum(b.p, b.Snap(), x, reg) && OkNum(b.p, b.Snap(), y, reg)
      modifies this`width, this`cache, b
      ensures Valid() && Pinned(b.p, old(b.Snap()), b.Snap()) && Computes(b.p, b.Snap(), Plain(S.Sub), reg, x, y, r)
    {
      hide Ordered, Indexed, Meets, Hinted, IsPrime, Pow2, Eval, AreBitsOf, OkCaches, Extends, LcMax, Value, SplitLc,
        WordVal, OkNum, NumVal, Completes, NoDivision, Unsolvable;
      ghost var c := b.Snap();
      PinnedSelf(b.p, c);
      if y == Num.Known(0) {
        SubNothing(b.p, c, x, reg);
        return x;
      }
      NumParts(b.p, c, x, reg);
      NumParts(b.p, c, y, reg);
      Pow2Room(b.p, reg);
      PowDouble(reg);
      var lc := b.EmitWrappingSub(reg, LcOf(x), LcOf(y));
      forall s: Assignment | Meets(b.p, c, s)
        ensures Comparable(b.p, None, reg, LcOf(x), LcOf(y), s)
      {
        BothInRange(b.p, c, x, y, reg, s);
      }
      PinnedFrom(b.p, c, b.Snap());
      Kept(c);
      SubComputes(b.p, c, b.Snap(), x, y, reg, lc);
      r := NewWire(lc, reg);
    }

    method MulInts(reg: nat, x: Num, y: Num) returns (r: Option<Num>)
      requires Valid() && (reg == 32 || reg == 64) && OkNum(b.p, b.Snap(), x, reg) && OkNum(b.p, b.Snap(), y, reg)
      modifies this`width, this`cache, b
      ensures Valid() && Pinned(b.p, old(b.Snap()), b.Snap())
      ensures r.Some? ==> Computes(b.p, b.Snap(), Plain(S.Mul), reg, x, y, r.value)
      ensures r.None? ==> Unsolvable(b.p, old(b.Snap()))
    {
      hide Ordered, Indexed, Meets, Hinted, IsPrime, Pow2, Eval, AreBitsOf, OkCaches, Extends, LcMax, Value, SplitLc,
        WordVal, OkNum, NumVal, Completes, NoDivision, Unsolvable;
      ghost var c := b.Snap();
      PinnedSelf(b.p, c);
      NumParts(b.p, c, x, reg);
      NumParts(b.p, c, y, reg);
      var w := WidthOf(x) + WidthOf(y);
      var lc;
      if x.Known? {
        lc := Scale(LcOf(y), x.k);
      } else if y.Known? {
        lc := Scale(LcOf(x), y.k);
      } else {
        b.ConsumePending(LcOf(x));
        b.ConsumePending(LcOf(y));
        var v := b.EmitMul(LcOf(x), LcOf(y));
        lc := Var(v);
        PinnedTightens(b.p, c, b.Snap());
        Kept(c);
      }
      PinnedTightens(b.p, c, b.Snap());
      NumStays(b.p, c, b.Snap(), x, reg);
      NumStays(b.p, c, b.Snap(), y, reg);
      ProductForm(b.p, b.Snap(), x, y, reg, lc, w);
      ghost var d := b.Snap();
      r := Answer(Plain(S.Mul), reg, x, y, lc, w);
      PinnedTrans(b.p, c, d, b.Snap());
      if r.None? {
        UnsolvableBefore(b.p, c, d);
      }
    }

    /** One bit of a bitwise operation; constants fold. */
    method BitGate(o: S.Bin, x: Lc, y: Lc) returns (r: Lc)
      requires b.Valid() && Below(x, b.next) && Below(y, b.next) && IsBit(b.p, b.Snap(), x) && IsBit(b.p, b.Snap(), y)
      requires PlainBits([x, y])
      modifies b
      ensures b.Valid() && Pinned(b.p, old(b.Snap()), b.Snap()) && Below(r, b.next)
      ensures GateValue(b.p, b.Snap(), o, x, y, r)
    {
      hide Ordered, Indexed, Meets, Hinted, IsPrime, Pow2, Eval, AreBitsOf, OkCaches, Extends, LcMax, Value, SplitLc,
        WordVal, OkNum, NumVal, Completes, NoDivision, Unsolvable;
      ghost var c := b.Snap();
      PinnedSelf(b.p, c);
      assert IsConst([x, y][0]) ==> x.constant == 0 || x.constant == 1;
      assert IsConst([x, y][1]) ==> y.constant == 0 || y.constant == 1;
      if IsConst(x) || IsConst(y) {
        r := if o.And? then
            if (IsConst(x) && x.constant == 0) || (IsConst(y) && y.constant == 0) then Const(0)
              else if IsConst(x) then y else x
          else if o.Or? then
            if IsConst(x) && x.constant == 0 then y else if IsConst(y) && y.constant == 0 then x else Const(1)
          else if IsConst(x) && x.constant == 0 then y else if IsConst(y) && y.constant == 0 then x
          else if IsConst(x) then Sub(Const(1), y) else Sub(Const(1), x);
        FoldedGate(b.p, c, o, x, y, r);
        return;
      }
      var v;
      if o.And? {
        v := b.EmitMul(x, y);
      } else if o.Or? {
        v := b.EmitOr(x, y);
      } else {
        v := b.EmitXor(x, y);
      }
      r := Var(v);
      PinnedTightens(b.p, c, b.Snap());
      EmittedGate(b.p, b.Snap(), o, x, y, v);
    }

    /** The bits of a bitwise operation, one gate each. */
    method BitGates(o: S.Bin, xs: seq<Lc>, ys: seq<Lc>) returns (rs: seq<Lc>)
      requires b.Valid() && |xs| == |ys| && AllBelow(xs, b.next) && AllBelow(ys, b.next) && PlainBits(xs)
        && PlainBits(ys)
      requires forall i :: 0 <= i < |xs| ==> IsBit(b.p, b.Snap(), xs[i]) && IsBit(b.p, b.Snap(), ys[i])
      modifies b
      ensures b.Valid() && Pinned(b.p, old(b.Snap()), b.Snap()) && |rs| == |xs| && AllBelow(rs, b.next)
      ensures forall i :: 0 <= i < |xs| ==> GateValue(b.p, b.Snap(), o, xs[i], ys[i], rs[i])
    {
      hide Ordered, Indexed, Meets, Hinted, IsPrime, Pow2, Eval, AreBitsOf, OkCaches, Extends, LcMax, Value, SplitLc,
        WordVal, OkNum, NumVal, Completes, NoDivision, Unsolvable;
      ghost var c := b.Snap();
      PinnedSelf(b.p, c);
      rs := [];
      while |rs| < |xs|
        invariant b.Valid() && Pinned(b.p, c, b.Snap()) && |rs| <= |xs| && AllBelow(rs, b.next)
        invariant forall i :: 0 <= i < |rs| ==> GateValue(b.p, b.Snap(), o, xs[i], ys[i], rs[i])
      {
        ghost var d := b.Snap();
        var i := |rs|;
        PinnedTightens(b.p, c, d);
        BitStays(b.p, c, d, xs[i]);
        BitStays(b.p, c, d, ys[i]);
        var r := BitGate(o, xs[i], ys[i]);
        PinnedTrans(b.p, c, d, b.Snap());
        PinnedTightens(b.p, d, b.Snap());
        forall j | 0 <= j < |rs|
          ensures GateValue(b.p, b.Snap(), o, xs[j], ys[j], rs[j])
        {
          GateStays(b.p, d, b.Snap(), o, xs[j], ys[j], rs[j]);
        }
        rs := rs + [r];
      }
    }

    method BitwiseInts(o: S.Bin, reg: nat, x: Num, y: Num) returns (r: Option<Num>)
      requires Valid() && (reg == 32 || reg == 64) && OkNum(b.p, b.Snap(), x, reg) && OkNum(b.p, b.Snap(), y, reg)
      requires o.And? || o.Or? || o.Xor?
      modifies this`width, this`cache, b
      ensures Valid() && Pinned(b.p, old(b.Snap()), b.Snap())
      ensures r.Some? ==> Computes(b.p, b.Snap(), Plain(o), reg, x, y, r.value)
      ensures r.None? ==> Unsolvable(b.p, old(b.Snap()))
    {
      hide Ordered, Indexed, Meets, Hinted, IsPrime, Pow2, Eval, AreBitsOf, OkCaches, Extends, LcMax, Value, SplitLc,
        WordVal, OkNum, NumVal, Completes, NoDivision, Unsolvable;
      NumParts(b.p, b.Snap(), x, reg);
      NumParts(b.p, b.Snap(), y, reg);
      FactsHold();
      var w := if WidthOf(x) > WidthOf(y) then WidthOf(x) else WidthOf(y);
      if !o.And? && Disjoint(Proven(), LcOf(x), LcOf(y), b.next) {
        DisjointForm(b.p, b.Snap(), Proven(), o, x, y, reg, w, b.next);
        r := Answer(Plain(o), reg, x, y, Add(LcOf(x), LcOf(y)), w);
        return;
      }
      if o.And? && (x.Known? || y.Known?) {
        // `v & (2^k − 1)`: the low `k` bits.
        var (v, mask) := if y.Known? then (x, y.k) else (y, if x.Known? then x.k else 0);
        var k := if mask + 1 < Pow2(64) then LogOf(mask + 1) else None;
        if k.Some? {
          var split := SplitLc(Proven(), LcOf(v), k.value, b.next);
          if split.Some? {
            var n := if k.value < WidthOf(v) then k.value else WidthOf(v);
            MaskForm(b.p, b.Snap(), Proven(), x, y, v, reg, k.value, n, b.next, split.value.0);
            r := Answer(Plain(o), reg, x, y, split.value.0, n);
            return;
          }
        }
      }
      r := GatedBits(o, reg, x, y, w);
    }

    method GatedBits(o: S.Bin, reg: nat, x: Num, y: Num, w: nat) returns (r: Option<Num>)
      requires Valid() && (reg == 32 || reg == 64) && OkNum(b.p, b.Snap(), x, reg) && OkNum(b.p, b.Snap(), y, reg)
      requires (o.And? || o.Or? || o.Xor?) && w == if WidthOf(x) > WidthOf(y) then WidthOf(x) else WidthOf(y)
      modifies this`width, this`cache, b
      ensures Valid() && Pinned(b.p, old(b.Snap()), b.Snap())
      ensures r.Some? ==> Computes(b.p, b.Snap(), Plain(o), reg, x, y, r.value)
      ensures r.None? ==> Unsolvable(b.p, old(b.Snap()))
    {
      hide Ordered, Indexed, Meets, Hinted, IsPrime, Pow2, Eval, AreBitsOf, OkCaches, Extends, LcMax, Value, SplitLc,
        WordVal, OkNum, NumVal, Completes, NoDivision, Unsolvable, Forces;
      ghost var c := b.Snap();
      NumParts(b.p, c, x, reg);
      NumParts(b.p, c, y, reg);
      RangeWidens(b.p, c, LcOf(x), WidthOf(x), w);
      RangeWidens(b.p, c, LcOf(y), WidthOf(y), w);
      var xs := BitsOf(LcOf(x), w);
      if xs.None? {
        return None;
      }
      ghost var d := b.Snap();
      RangeStays(b.p, c, d, LcOf(y), w);
      var ys := BitsOf(LcOf(y), w);
      ghost var e := b.Snap();
      PinnedTrans(b.p, c, d, e);
      if ys.None? {
        UnsolvableBefore(b.p, c, d);
        return None;
      }
      PinnedTightens(b.p, d, e);
      DecomposedStays(b.p, d, e, LcOf(x), xs.value);
      DecomposedBitsAre(b.p, e, LcOf(x), xs.value);
      DecomposedBitsAre(b.p, e, LcOf(y), ys.value);
      var rs := BitGates(o, xs.value, ys.value);
      ghost var f := b.Snap();
      PinnedTrans(b.p, c, e, f);
      PinnedTightens(b.p, e, f);
      PinnedTightens(b.p, c, f);
      Kept(e);
      DecomposedStays(b.p, e, f, LcOf(x), xs.value);
      DecomposedStays(b.p, e, f, LcOf(y), ys.value);
      NumStays(b.p, c, f, x, reg);
      NumStays(b.p, c, f, y, reg);
      RecomposedBelow(rs, b.next);
      var n := if o.And? then (if WidthOf(x) < WidthOf(y) then WidthOf(x) else WidthOf(y)) else w;
      BitwiseForm(b.p, f, o, x, y, reg, w, n, xs.value, ys.value, rs);
      r := Answer(Plain(o), reg, x, y, Recomposed(rs), n);
      PinnedTrans(b.p, c, f, b.Snap());
      if r.None? {
        UnsolvableBefore(b.p, c, f);
      }
    }

    // ----- shifts by a constant -----

    method ShlInts(reg: nat, x: Num, y: Num) returns (r: Option<Num>)
      requires Valid() && (reg == 32 || reg == 64) && OkNum(b.p, b.Snap(), x, reg) && OkNum(b.p, b.Snap(), y, reg)
      requires y.Known?
      modifies this`width, this`cache, b
      ensures Valid() && Pinned(b.p, old(b.Snap()), b.Snap())
      ensures r.Some? ==> Computes(b.p, b.Snap(), Plain(S.Shl), reg, x, y, r.value)
      ensures r.None? ==> Unsolvable(b.p, old(b.Snap()))
    {
      hide Ordered, Indexed, Meets, Hinted, IsPrime, Pow2, Eval, AreBitsOf, OkCaches, Extends, LcMax, Value, SplitLc,
        WordVal, OkNum, NumVal, Completes, NoDivision, Unsolvable;
      NumParts(b.p, b.Snap(), x, reg);
      var k := y.k % reg;
      ShlForm(b.p, b.Snap(), x, y, reg, k);
      r := Answer(Plain(S.Shl), reg, x, y, Scale(LcOf(x), Pow2(k)), WidthOf(x) + k);
    }

    /** Logical right shift. */
    method ShrInts(op: IntOp, reg: nat, x: Num, y: Num) returns (r: Option<Num>)
      requires Valid() && (reg == 32 || reg == 64) && OkNum(b.p, b.Snap(), x, reg) && OkNum(b.p, b.Snap(), y, reg)
      requires y.Known? && (op == Plain(S.ShrU) || (op == ShrS && WidthOf(x) < reg))
      modifies this`width, this`cache, b
      ensures Valid() && Pinned(b.p, old(b.Snap()), b.Snap())
      ensures r.Some? ==> Computes(b.p, b.Snap(), op, reg, x, y, r.value)
      ensures r.None? ==> Unsolvable(b.p, old(b.Snap()))
    {
      hide Ordered, Indexed, Meets, Hinted, IsPrime, Pow2, Eval, AreBitsOf, OkCaches, Extends, LcMax, Value, SplitLc,
        WordVal, OkNum, NumVal, Completes, NoDivision, Unsolvable;
      NumParts(b.p, b.Snap(), x, reg);
      FactsHold();
      ghost var c := b.Snap();
      var (k, w) := (y.k % reg, WidthOf(x));
      LogicalShift(b.p, c, op, x, y, reg, k);
      if k >= w {
        PinnedSelf(b.p, c);
        ShiftedOut(b.p, c, op, x, y, reg, k);
        return Some(Num.Known(0));
      }
      var split := SplitLc(Proven(), LcOf(x), k, b.next);
      if split.Some? {
        SplitShift(b.p, c, Proven(), op, x, y, reg, k, b.next, split.value.1);
        r := Answer(op, reg, x, y, split.value.1, w - k);
        return;
      }
      var bits := BitsOf(LcOf(x), w);
      if bits.None? {
        return None;
      }
      ghost var d := b.Snap();
      PinnedTightens(b.p, c, d);
      NumStays(b.p, c, d, x, reg);
      ShiftStays(b.p, c, d, op, reg, x, y, k);
      RecomposedBelow(bits.value[k..], b.next);
      BitShift(b.p, d, op, x, y, reg, k, bits.value);
      r := Answer(op, reg, x, y, Recomposed(bits.value[k..]), w - k);
      PinnedTrans(b.p, c, d, b.Snap());
      if r.None? {
        UnsolvableBefore(b.p, c, d);
      }
    }

    /** Arithmetic right shift of a full register: the logical shift, and the sign copied into the top bits. */
    method SarInts(reg: nat, x: Num, y: Num) returns (r: Option<Num>)
      requires Valid() && (reg == 32 || reg == 64) && OkNum(b.p, b.Snap(), x, reg) && OkNum(b.p, b.Snap(), y, reg)
      requires y.Known? && WidthOf(x) >= reg
      modifies this`width, this`cache, b
      ensures Valid() && Pinned(b.p, old(b.Snap()), b.Snap())
      ensures r.Some? ==> Computes(b.p, b.Snap(), ShrS, reg, x, y, r.value)
      ensures r.None? ==> Unsolvable(b.p, old(b.Snap()))
    {
      hide Ordered, Indexed, Meets, Hinted, IsPrime, Pow2, Eval, AreBitsOf, OkCaches, Extends, LcMax, Value, SplitLc,
        WordVal, OkNum, NumVal, Completes, NoDivision, Unsolvable;
      NumParts(b.p, b.Snap(), x, reg);
      ghost var c := b.Snap();
      var k := y.k % reg;
      var bits := BitsOf(LcOf(x), reg);
      if bits.None? {
        return None;
      }
      ghost var d := b.Snap();
      PinnedTightens(b.p, c, d);
      NumStays(b.p, c, d, x, reg);
      RecomposedBelow(bits.value[k..], b.next);
      var lc := Add(Recomposed(bits.value[k..]), Scale(bits.value[reg - 1], Ones(reg, k)));
      SarForm(b.p, d, x, y, reg, k, bits.value, lc);
      r := Answer(ShrS, reg, x, y, lc, reg);
      PinnedTrans(b.p, c, d, b.Snap());
      if r.None? {
        UnsolvableBefore(b.p, c, d);
      }
    }

    /** Rotations of the register's bits. */
    method RotInts(op: IntOp, reg: nat, x: Num, y: Num) returns (r: Option<Num>)
      requires Valid() && (reg == 32 || reg == 64) && OkNum(b.p, b.Snap(), x, reg) && OkNum(b.p, b.Snap(), y, reg)
      requires y.Known? && (op == Rotl || op == Rotr)
      modifies this`width, this`cache, b
      ensures Valid() && Pinned(b.p, old(b.Snap()), b.Snap())
      ensures r.Some? ==> Computes(b.p, b.Snap(), op, reg, x, y, r.value)
      ensures r.None? ==> Unsolvable(b.p, old(b.Snap()))
    {
      hide Ordered, Indexed, Meets, Hinted, IsPrime, Pow2, Eval, AreBitsOf, OkCaches, Extends, LcMax, Value, SplitLc,
        WordVal, OkNum, NumVal, Completes, NoDivision, Unsolvable;
      NumParts(b.p, b.Snap(), x, reg);
      ghost var c := b.Snap();
      RangeWidens(b.p, c, LcOf(x), WidthOf(x), reg);
      var k := y.k % reg;
      var bits := BitsOf(LcOf(x), reg);
      if bits.None? {
        return None;
      }
      ghost var d := b.Snap();
      PinnedTightens(b.p, c, d);
      NumStays(b.p, c, d, x, reg);
      // Where the lowest result bit comes from.
      var j := if op == Rotl then reg - k else k;
      var turned := bits.value[j..] + bits.value[..j];
      RecomposedBelow(turned, b.next);
      RotForm(b.p, d, op, x, y, reg, k, j, bits.value, turned);
      r := Answer(op, reg, x, y, Recomposed(turned), reg);
      PinnedTrans(b.p, c, d, b.Snap());
      if r.None? {
        UnsolvableBefore(b.p, c, d);
      }
    }

    /** Quotient or remainder by a power of two. */
    method DivPow2Ints(o: S.Bin, reg: nat, x: Num, y: Num, k: nat) returns (r: Option<Num>)
      requires Valid() && (reg == 32 || reg == 64) && OkNum(b.p, b.Snap(), x, reg) && OkNum(b.p, b.Snap(), y, reg)
      requires (o.DivU? || o.RemU?) && y == Num.Known(Pow2(k)) && k < reg
      modifies this`width, this`cache, b
      ensures Valid() && Pinned(b.p, old(b.Snap()), b.Snap())
      ensures r.Some? ==> Computes(b.p, b.Snap(), Plain(o), reg, x, y, r.value)
      ensures r.None? ==> Unsolvable(b.p, old(b.Snap()))
    {
      hide Ordered, Indexed, Meets, Hinted, IsPrime, Pow2, Eval, AreBitsOf, OkCaches, Extends, LcMax, Value, SplitLc,
        WordVal, OkNum, NumVal, Completes, NoDivision, Unsolvable;
      NumParts(b.p, b.Snap(), x, reg);
      FactsHold();
      ghost var c := b.Snap();
      var w := WidthOf(x);
      var m := if k < w then k else w;
      var n := if o.DivU? then w - m else m;
      var split := SplitLc(Proven(), LcOf(x), k, b.next);
      if split.Some? {
        var lc := if o.DivU? then split.value.1 else split.value.0;
        SplitDiv(b.p, c, Proven(), o, x, y, reg, k, n, b.next, lc);
        r := Answer(Plain(o), reg, x, y, lc, n);
        return;
      }
      var all := if w > k then w else k;
      RangeWidens(b.p, c, LcOf(x), w, all);
      var bits := BitsOf(LcOf(x), all);
      if bits.None? {
        return None;
      }
      ghost var d := b.Snap();
      PinnedTightens(b.p, c, d);
      NumStays(b.p, c, d, x, reg);
      var part := if o.DivU? then bits.value[m..] else bits.value[..m];
      RecomposedBelow(part, b.next);
      BitsDiv(b.p, d, o, x, y, reg, k, m, n, bits.value, part);
      r := Answer(Plain(o), reg, x, y, Recomposed(part), n);
      PinnedTrans(b.p, c, d, b.Snap());
      if r.None? {
        UnsolvableBefore(b.p, c, d);
      }
    }

    // ----- guards -----

    /** Enter the arm where the bit `lit` is 1. */
    method ArmBegin(lit: Lc)
      requires Valid() && Below(lit, b.next) && IsBit(b.p, b.Snap(), lit)
      modifies this`arms
      ensures Valid() && arms == old(arms) + [Arm(lit, None)]
    {
      hide Ordered, Indexed, Meets, IsPrime, Pow2, Value, OkCaches;
      ghost var was := arms;
      arms := arms + [Arm(lit, None)];
      ArmsPushed(b.p, b.Snap(), was, lit);
    }

    method ArmEnd()
      requires Valid() && arms != []
      modifies this`arms
      ensures Valid() && arms == old(arms)[..|old(arms)| - 1]
    {
      hide Ordered, Indexed, Meets, IsPrime, Pow2, Value, OkCaches;
      ghost var was := arms;
      arms := arms[..|arms| - 1];
      ArmsPopped(b.p, b.Snap(), was);
    }

    /** The current guard: the product of the enclosing literals, made the first time it is needed. */
    method Guard() returns (g: Option<Lc>)
      requires Valid()
      modifies this`arms, b
      ensures Valid() && Pinned(b.p, old(b.Snap()), b.Snap()) && SameLits(old(arms), arms)
      ensures g.None? <==> arms == []
      ensures g.Some? ==> IsGuard(b.p, b.Snap(), arms, g.value)
    {
      hide Ordered, Indexed, Meets, Hinted, IsPrime, Pow2, Value, Eval, OkCaches, Extends, AllTaken, OkBounds, OkCache,
        Completes, NoDivision, Unsolvable;
      ghost var (c, was) := (b.Snap(), arms);
      PinnedSelf(b.p, c);
      var j := 0;
      while j < |arms| && arms[j].made.Some?
        invariant 0 <= j <= |arms| && forall i :: 0 <= i < j ==> arms[i].made.Some?
      {
        j := j + 1;
      }
      while j < |arms|
        invariant 0 <= j <= |arms| && Valid() && Pinned(b.p, c, b.Snap()) && SameLits(was, arms)
        invariant forall i :: 0 <= i < |arms| ==> (i < j <==> arms[i].made.Some?)
      {
        ghost var d := b.Snap();
        MakeGuard(j);
        PinnedTrans(b.p, c, d, b.Snap());
        j := j + 1;
      }
      if arms == [] {
        return None;
      }
      g := arms[|arms| - 1].made;
      LastGuard(b.p, b.Snap(), arms);
    }

    /** Make the guard of arm `j` from its parent's. */
    method MakeGuard(j: nat)
      requires Valid() && j < |arms| && arms[j].made.None? && forall i :: 0 <= i < |arms| ==>
        (i < j <==> arms[i].made.Some?)
      modifies this`arms, b
      ensures Valid() && Pinned(b.p, old(b.Snap()), b.Snap()) && SameLits(old(arms), arms)
      ensures forall i :: 0 <= i < |arms| ==> (i < j + 1 <==> arms[i].made.Some?)
    {
      hide Ordered, Indexed, Meets, Hinted, IsPrime, Pow2, Value, Eval, OkCaches, Extends, AllTaken, OkBounds, OkCache,
        Completes, NoDivision, Unsolvable;
      ghost var c := b.Snap();
      PinnedSelf(b.p, c);
      var lit := arms[j].lit;
      var g := lit;
      if j > 0 {
        var parent := arms[j - 1].made.value;
        ParentBelow(b.p, c, arms, j);
        b.ConsumePending(parent);
        b.ConsumePending(lit);
        var v := b.EmitMul(parent, lit);
        g := Var(v);
        PinnedTightens(b.p, c, b.Snap());
        Kept(c);
      }
      GuardMade(b.p, b.Snap(), arms, j, g);
      arms := arms[j := Arm(lit, Some(g))];
    }

    /** Require `lhs = rhs` where the current path is taken. */
    method RequireGated(lhs: Lc, rhs: Lc)
      requires Valid() && Below(lhs, b.next) && Below(rhs, b.next)
      modifies this`arms, b
      ensures Valid() && Extends(old(b.Snap()), b.Snap()) && b.next >= old(b.next) && SameLits(old(arms), arms)
      ensures forall s: Assignment ::
        AddsAt(b.p, old(b.Snap()), b.Snap(), s, EqualWhere(b.p, old(arms), lhs, rhs, s))
      ensures forall s: Assignment :: Meets(b.p, old(b.Snap()), s) && EqualWhere(b.p, old(arms), lhs, rhs, s) ==>
        Completes(b.p, old(b.Snap()), b.Snap(), s)
    {
      hide Ordered, Indexed, Meets, Hinted, IsPrime, Pow2, Value, Eval, OkCaches, Extends, AllTaken, OkBounds, OkCache,
        OkArms, Completes, NoDivision, Unsolvable;
      ghost var c := b.Snap();
      var g := Guard();
      ghost var d := b.Snap();
      RequireWhere(g, lhs, rhs);
      ExtendsTrans(c, d, b.Snap());
      forall s: Assignment
        ensures AddsAt(b.p, c, b.Snap(), s, EqualWhere(b.p, old(arms), lhs, rhs, s))
      {
        SameTaken(b.p, old(arms), arms, s);
        GuardCases(b.p, d, arms, g, s);
        AddsThen(b.p, c, d, b.Snap(), s, true,
                 (g.Some? ==> Value(b.p, g.value, s) != 0) ==> Value(b.p, lhs, s) == Value(b.p, rhs, s),
                 EqualWhere(b.p, old(arms), lhs, rhs, s));
      }
      RequireCompletes(b.p, c, d, b.Snap(), old(arms), lhs, rhs);
    }

    /** `lhs = rhs` where the guard `g` is 1. */
    method RequireWhere(g: Option<Lc>, lhs: Lc, rhs: Lc)
      requires Valid() && Below(lhs, b.next) && Below(rhs, b.next) && (g.Some? ==> Below(g.value, b.next))
      modifies b
      ensures Valid() && Extends(old(b.Snap()), b.Snap()) && b.next == old(b.next) && b.gens == old(b.gens)
      ensures forall s: Assignment :: AddsAt(b.p, old(b.Snap()), b.Snap(), s,
                (g.Some? ==> Value(b.p, g.value, s) != 0) ==> Value(b.p, lhs, s) == Value(b.p, rhs, s))
    {
      hide Ordered, Indexed, Meets, Hinted, IsPrime, Pow2, Value, Eval, OkCaches, Extends, AllTaken, OkBounds, OkCache,
        OkArms, Completes, NoDivision, Unsolvable;
      ghost var c := b.Snap();
      match g {
        case None => b.EmitRequireEq(lhs, rhs);
        case Some(e) => b.EmitRequireEqGated(e, lhs, rhs);
      }
      forall s: Assignment | Meets(b.p, b.Snap(), s)
        ensures Meets(b.p, c, s)
      {
        assert AddsAt(b.p, c, b.Snap(), s, (g.Some? ==> Value(b.p, g.value, s) != 0) ==>
          Value(b.p, lhs, s) == Value(b.p, rhs, s));
      }
      Kept(c);
    }

    // ----- division -----

    /** Hinted quotient and remainder, 0 in an arm that is not taken. */
    method DivHint(num: Lc, den: Lc, g: Option<Lc>) returns (q: nat, r: nat)
      requires Valid() && Below(num, b.next) && Below(den, b.next) && (g.Some? ==> Below(g.value, b.next))
      modifies b
      ensures Valid() && Extends(old(b.Snap()), b.Snap()) && b.next >= old(b.next) && q < b.next && r < b.next
      ensures Tightens(b.p, old(b.Snap()), b.Snap()) && b.gens == old(b.gens) + [Some(DivRem(q, r, num, den))]
      ensures forall s: Assignment :: g.None? || Value(b.p, g.value, s) <= 1 ==>
                (Meets(b.p, b.Snap(), s) <==> Meets(b.p, old(b.Snap()), s) && (Live(b.p, g, s) || Zeroed(b.p, q, r, s)))
      ensures forall s: Assignment :: Hinted(b.p, b.Snap(), |old(b.gens)|, s) <==>
        AsHinted(b.p, DivRem(q, r, num, den), s)
    {
      hide Ordered, Indexed, Meets, Hinted, IsPrime, Pow2, Value, Eval, OkCaches, Extends, AllTaken, OkBounds, OkCache,
        OkArms, Cong, Completes, NoDivision, Unsolvable;
      ghost var c := b.Snap();
      q, r := b.next, b.next + 1;
      b.Hint(DivRem(q, r, num, den));
      ghost var c1 := b.Snap();
      b.PinDead(g, q);
      ghost var c2 := b.Snap();
      b.PinDead(g, r);
      ghost var c3 := b.Snap();
      ExtendsTrans(c, c1, c2);
      ExtendsTrans(c, c2, c3);
      forall s: Assignment
        ensures Meets(b.p, c3, s) ==> Meets(b.p, c, s)
        ensures g.None? || Value(b.p, g.value, s) <= 1 ==>
                  (Meets(b.p, c3, s) <==> Meets(b.p, c, s) && (Live(b.p, g, s) || Zeroed(b.p, q, r, s)))
        ensures Hinted(b.p, c3, |c.gens|, s) <==> AsHinted(b.p, DivRem(q, r, num, den), s)
      {
        SameGens(b.p, c1, c2, s);
        SameGens(b.p, c2, c3, s);
        HintedSplit(b.p, c, c1, c2, s);
        HintedSplit(b.p, c, c2, c3, s);
      }
      Kept(c);
    }

    /** The checks of a division: both ranges, and where the guard `g` is 1 `r < den` and `q · den + r = num`. */
    method DivChecks(q: nat, r: nat, num: Lc, den: Lc, k: Option<nat>, wq: nat, wr: nat, wl: nat, g: Option<Lc>)
      requires Valid() && q < b.next && r < b.next && Below(num, b.next) && Below(den, b.next)
        && (g.Some? ==> Below(g.value, b.next))
      requires wq <= 64 && wr <= wl <= 64 && InRange(b.p, b.Snap(), den, wl) && (k.Some? ==> den == Const(k.value))
      modifies this`cache, b
      ensures Valid() && Extends(old(b.Snap()), b.Snap()) && b.next >= old(b.next)
        && NoDivision(old(b.Snap()), b.Snap())
      ensures forall s: Assignment :: AddsAt(b.p, old(b.Snap()), b.Snap(), s, DivOk(b.p, q, r, num, den, wq, wr, g, s))
    {
      hide Ordered, Indexed, Meets, Hinted, IsPrime, Pow2, Value, Eval, OkCaches, Extends, AllTaken, OkBounds, OkCache,
        OkArms, Cong, Live, AreBitsOf, NoDivision, Completes, Unsolvable;
      ghost var c := b.Snap();
      var qBits := RangeBits(Var(q), wq);
      assert !IsConst(Var(q)) && !IsConst(Var(r));
      ghost var c1 := b.Snap();
      var rBits := RangeBits(Var(r), wr);
      ghost var c2 := b.Snap();
      RangedTightens(b.p, c, c1, c2, Var(q), wq, Var(r), wr);
      var lt := b.EmitLessThan(wl, Var(r), den, None);
      ghost var c3 := b.Snap();
      ComparedPinned(b.p, c, c2, c3, Var(r), den, wr, wl);
      Kept(c2);
      RequireWhere(g, lt.value, Const(1));
      ghost var c4 := b.Snap();
      NoneAdded(c3, c4);
      var prod := DivProduct(q, den, k);
      ghost var c5 := b.Snap();
      b.ConsumePending(num);
      RequireWhere(g, Add(prod, Var(r)), num);
      ghost var c6 := b.Snap();
      NoneAdded(c5, c6);
      forall s: Assignment
        ensures AddsAt(b.p, c, c6, s, DivOk(b.p, q, r, num, den, wq, wr, g, s))
      {
        ComparedValue(b.p, c, c2, c3, Var(r), den, wr, wl, lt.value, s);
        DivChecksAdd(b.p, c, c1, c2, c3, c4, c5, c6, q, r, num, den, lt.value, prod, wq, wr, g, s);
      }
      DivExtends(c, c1, c2, c3, c4, c5, c6);
      DivUndivided(c, c1, c2, c3, c4, c5, c6);
    }

    /** The quotient times the divisor. */
    method DivProduct(q: nat, den: Lc, k: Option<nat>) returns (prod: Lc)
      requires Valid() && q < b.next && Below(den, b.next) && (k.Some? ==> den == Const(k.value))
      modifies b
      ensures Valid() && Pinned(b.p, old(b.Snap()), b.Snap()) && Below(prod, b.next)
        && NoDivision(old(b.Snap()), b.Snap())
      ensures forall s: Assignment :: Meets(b.p, b.Snap(), s) ==> Cong(b.p, Eval(prod, s), s(q) * Eval(den, s))
    {
      hide Ordered, Indexed, Meets, Hinted, IsPrime, Pow2, Value, Eval, OkCaches, Extends, AllTaken, OkBounds, OkCache,
        OkArms, Cong, Live, AreBitsOf, Completes, NoDivision, Unsolvable;
      ghost var c := b.Snap();
      PinnedSelf(b.p, c);
      if k.Some? {
        prod := Scale(Var(q), k.value);
        forall s: Assignment
          ensures Cong(b.p, Eval(prod, s), s(q) * Eval(den, s))
        {
          ScaledProduct(b.p, q, k.value, s);
        }
        NoneAdded(c, c);
        return;
      }
      b.ConsumePending(den);
      var v := b.EmitMul(Var(q), den);
      prod := Var(v);
      PinnedTightens(b.p, c, b.Snap());
      Kept(c);
    }

    /**
     * Unsigned quotient or remainder. In an arm, both equalities bind only where it is taken; the hint divides
     * `g · x` by `y + 1 − g`, so that elsewhere, where `y` may be 0, quotient and remainder are 0.
     */
    method DivInts(o: S.Bin, reg: nat, x: Num, y: Num) returns (r: Option<Num>)
      requires Valid() && (reg == 32 || reg == 64) && OkNum(b.p, b.Snap(), x, reg) && OkNum(b.p, b.Snap(), y, reg)
      requires (o.DivU? || o.RemU?) && y != Num.Known(0)
      modifies this, b
      ensures Valid() && PinnedDiv(b.p, old(b.Snap()), b.Snap(), old(arms), y) && SameLits(old(arms), arms)
      ensures r.Some? && DivComputes(b.p, b.Snap(), o, reg, x, y, old(arms), r.value)
    {
      hide Ordered, Indexed, Meets, Hinted, IsPrime, Pow2, Value, Eval, OkCaches, Extends, AllTaken, OkBounds, OkCache,
        OkArms, Cong, Live, AreBitsOf, OkNum, NumVal, WordVal, DivOk, DivDone, IsQuotient, Divisible, Completes,
        NoDivision, Unsolvable;
      ghost var c0 := b.Snap();
      NumParts(b.p, c0, x, reg);
      NumParts(b.p, c0, y, reg);
      var g := Guard();
      ghost var c := b.Snap();
      PinnedTightens(b.p, c0, c);
      NumStays(b.p, c0, c, x, reg);
      NumStays(b.p, c0, c, y, reg);
      var q, m := DivRows(reg, x, y, g);
      ghost var c3 := b.Snap();
      ForcesTrans(b.p, c0, c, c3);
      ForcesTightens(b.p, c0, c3);
      NumsBelow(b.p, c0, c3, x, y, reg);
      DivResults(b.p, c3, reg, x, y, arms, q, m);
      r := IntResult(Var(if o.DivU? then q else m), if o.DivU? then WidthOf(x) else WidthOf(y), reg);
      PinnedDivTrans(b.p, c0, c, c3, b.Snap(), old(arms), arms, y, reg);
      PinnedTightens(b.p, c3, b.Snap());
      DividesFrom(b.p, c3, b.Snap(), o, reg, x, y, arms, old(arms), q, m, r.value);
    }

    /** The rows of a division under the guard `g`. */
    method DivRows(reg: nat, x: Num, y: Num, g: Option<Lc>) returns (q: nat, m: nat)
      requires Valid() && (reg == 32 || reg == 64) && OkNum(b.p, b.Snap(), x, reg) && OkNum(b.p, b.Snap(), y, reg)
      requires y != Num.Known(0) && (g.None? <==> arms == []) && (g.Some? ==> IsGuard(b.p, b.Snap(), arms, g.value))
      modifies this`cache, b
      ensures Valid() && PinnedDiv(b.p, old(b.Snap()), b.Snap(), arms, y) && q < b.next && m < b.next
      ensures DivDone(b.p, b.Snap(), x, y, arms, q, m)
    {
      hide Ordered, Indexed, Meets, Hinted, IsPrime, Pow2, Value, Eval, OkCaches, Extends, AllTaken, OkBounds, OkCache,
        OkArms, Cong, Live, AreBitsOf, OkNum, NumVal, WordVal, DivOk, DivDone, IsQuotient, NoDivision, Completes,
        Divisible, Unsolvable, PinnedDiv;
      ghost var c := b.Snap();
      NumParts(b.p, c, x, reg);
      NumParts(b.p, c, y, reg);
      var (la, lb, wa, wb) := (LcOf(x), LcOf(y), WidthOf(x), WidthOf(y));
      var den := if g.Some? && y.Wire? then Add(lb, Sub(Const(1), g.value)) else lb;
      var num := b.GateInput(g, la);
      ghost var c1 := b.Snap();
      PinnedTightens(b.p, c, c1);
      Kept(c);
      q, m := DivHint(num, den, g);
      ghost var c2 := b.Snap();
      var (wq, wr) := (if wa > 1 then wa else 1, if wb > 1 then wb else 1);
      DivisorInRange(b.p, c, c1, c2, y, reg, wr);
      DivChecks(q, m, la, lb, if y.Known? then Some(y.k) else None, wq, wr, wr, g);
      DivPinned(b.p, c, c1, c2, b.Snap(), x, y, reg, arms, g, num, den, q, m, wq, wr);
      DivCompletes(b.p, c, c1, c2, b.Snap(), x, y, reg, arms, g, num, den, q, m);
    }

    // ----- shifts by a witness amount -----

    /** `2^k` for the number `k` whose bits are `bits`: the product of `1 + (2^(2^i) − 1)·kᵢ`. */
    method PowerOfTwo(bits: seq<Lc>, ghost x: Lc) returns (pw: Lc)
      requires Valid() && AllBelow(bits, b.next) && |bits| <= 6 && Decomposed(b.p, b.Snap(), x, bits)
      modifies b
      ensures Valid() && Pinned(b.p, old(b.Snap()), b.Snap()) && Below(pw, b.next)
      ensures IsPower(b.p, b.Snap(), pw, x, |bits|)
    {
      hide Ordered, Indexed, Meets, Hinted, IsPrime, Pow2, Value, Eval, OkCaches, Extends, AllTaken, OkBounds, OkCache,
        OkArms, Cong, Live, AreBitsOf, OkNum, NumVal, WordVal, DivOk, DivDone, IsQuotient, Completes, NoDivision,
        Unsolvable;
      ghost var c := b.Snap();
      PinnedSelf(b.p, c);
      pw := Const(1);
      NoDigits(b.p, c, x);
      var i := 0;
      while i < |bits|
        invariant 0 <= i <= |bits| && Valid() && Pinned(b.p, c, b.Snap()) && Below(pw, b.next)
        invariant IsPower(b.p, b.Snap(), pw, x, i) && Decomposed(b.p, b.Snap(), x, bits)
      {
        ghost var d := b.Snap();
        PinnedSelf(b.p, d);
        var f := Add(Const(1), Scale(bits[i], Pow2(Pow2(i)) - 1));
        var next;
        if IsConst(pw) {
          next := Scale(f, pw.constant);
        } else {
          b.ConsumePending(pw);
          var v := b.EmitMul(pw, f);
          next := Var(v);
          PinnedTightens(b.p, d, b.Snap());
          Kept(d);
        }
        PinnedTightens(b.p, d, b.Snap());
        DecomposedStays(b.p, d, b.Snap(), x, bits);
        OneDigit(b.p, d, b.Snap(), bits, pw, f, next, x, i);
        PinnedTrans(b.p, c, d, b.Snap());
        pw := next;
        i := i + 1;
      }
    }

    /** `x << y` and `x >> y` for a witness `y`: multiply or divide by `2^(y mod reg)`, which is never 0. */
    method ShiftByInts(o: S.Bin, reg: nat, x: Num, y: Num) returns (r: Option<Num>)
      requires Valid() && (reg == 32 || reg == 64) && OkNum(b.p, b.Snap(), x, reg) && OkNum(b.p, b.Snap(), y, reg)
      requires o.Shl? || o.ShrU?
      modifies this`width, this`cache, b
      ensures Valid() && Pinned(b.p, old(b.Snap()), b.Snap())
      ensures r.Some? ==> Computes(b.p, b.Snap(), Plain(o), reg, x, y, r.value)
      ensures r.None? ==> Unsolvable(b.p, old(b.Snap()))
    {
      hide Ordered, Indexed, Meets, Hinted, IsPrime, Pow2, Value, Eval, OkCaches, Extends, AllTaken, OkBounds, OkCache,
        OkArms, Cong, Live, AreBitsOf, OkNum, NumVal, WordVal, DivOk, DivDone, IsQuotient, Completes, NoDivision,
        Unsolvable;
      ghost var c := b.Snap();
      NumParts(b.p, c, x, reg);
      NumParts(b.p, c, y, reg);
      var lg := if reg == 64 then 6 else 5;
      var n := if WidthOf(y) > lg then WidthOf(y) else lg;
      RangeWidens(b.p, c, LcOf(y), WidthOf(y), n);
      var kb := BitsOf(LcOf(y), n);
      if kb.None? {
        return None;
      }
      ghost var d := b.Snap();
      LowBits(b.p, d, LcOf(y), kb.value, lg);
      var pw := PowerOfTwo(kb.value[..lg], LcOf(y));
      ghost var e := b.Snap();
      PinnedTrans(b.p, c, d, e);
      PinnedTightens(b.p, c, e);
      NumStays(b.p, c, e, x, reg);
      NumStays(b.p, c, e, y, reg);
      ShiftPower(b.p, e, y, reg, lg, pw);
      if o.Shl? {
        r := ShiftLeft(reg, x, y, pw);
      } else {
        r := ShiftRight(reg, x, y, pw);
      }
      PinnedTrans(b.p, c, e, b.Snap());
      if r.None? {
        UnsolvableBefore(b.p, c, e);
      }
    }

    method ShiftLeft(reg: nat, x: Num, y: Num, pw: Lc) returns (r: Option<Num>)
      requires Valid() && (reg == 32 || reg == 64) && OkNum(b.p, b.Snap(), x, reg) && Below(pw, b.next)
        && Shifts(b.p, b.Snap(), y, reg, pw)
      modifies this`width, this`cache, b
      ensures Valid() && Pinned(b.p, old(b.Snap()), b.Snap())
      ensures r.Some? ==> Computes(b.p, b.Snap(), Plain(S.Shl), reg, x, y, r.value)
      ensures r.None? ==> Unsolvable(b.p, old(b.Snap()))
    {
      hide Ordered, Indexed, Meets, Hinted, IsPrime, Pow2, Value, Eval, OkCaches, Extends, AllTaken, OkBounds, OkCache,
        OkArms, Cong, Live, AreBitsOf, OkNum, NumVal, WordVal, DivOk, DivDone, IsQuotient, Completes, NoDivision,
        Unsolvable;
      ghost var c := b.Snap();
      NumParts(b.p, c, x, reg);
      b.ConsumePending(LcOf(x));
      b.ConsumePending(pw);
      var v := b.EmitMul(LcOf(x), pw);
      ghost var d := b.Snap();
      PinnedTightens(b.p, c, d);
      Kept(c);
      LeftForm(b.p, c, d, x, y, reg, pw, v);
      r := Answer(Plain(S.Shl), reg, x, y, Var(v), WidthOf(x) + reg - 1);
      PinnedTrans(b.p, c, d, b.Snap());
      if r.None? {
        UnsolvableBefore(b.p, c, d);
      }
    }

    method ShiftRight(reg: nat, x: Num, y: Num, pw: Lc) returns (r: Option<Num>)
      requires Valid() && (reg == 32 || reg == 64) && OkNum(b.p, b.Snap(), x, reg) && Below(pw, b.next)
        && Shifts(b.p, b.Snap(), y, reg, pw)
      modifies this`width, this`cache, b
      ensures Valid() && Pinned(b.p, old(b.Snap()), b.Snap())
      ensures r.Some? ==> Computes(b.p, b.Snap(), Plain(S.ShrU), reg, x, y, r.value)
      ensures r.None? ==> Unsolvable(b.p, old(b.Snap()))
    {
      hide Ordered, Indexed, Meets, Hinted, IsPrime, Pow2, Value, Eval, OkCaches, Extends, AllTaken, OkBounds, OkCache,
        OkArms, Cong, Live, AreBitsOf, OkNum, NumVal, WordVal, DivOk, DivDone, IsQuotient, NoDivision, Completes,
        Unsolvable;
      ghost var c := b.Snap();
      NumParts(b.p, c, x, reg);
      var q, m := DivHint(LcOf(x), pw, None);
      ghost var c1 := b.Snap();
      var w := if WidthOf(x) > 1 then WidthOf(x) else 1;
      var n := if WidthOf(x) > reg then WidthOf(x) else reg;
      PowerRange(b.p, c, c1, y, reg, pw, n);
      DivChecks(q, m, LcOf(x), pw, None, w, w, n, None);
      ghost var d := b.Snap();
      RightPinned(b.p, c, c1, d, x, y, reg, pw, q, m, w);
      RightCompletes(b.p, c, c1, d, x, y, reg, pw, q, m);
      PinnedTightens(b.p, c, d);
      RightForm(b.p, c, d, x, y, reg, pw, q, m);
      r := Answer(Plain(S.ShrU), reg, x, y, Var(q), WidthOf(x));
      PinnedTrans(b.p, c, d, b.Snap());
      if r.None? {
        UnsolvableBefore(b.p, c, d);
      }
    }

    // ----- comparisons -----

    /** `x + 2^(reg−1) mod 2^reg`, for a full register `x`. */
    method SignFlip(x: Lc, reg: nat) returns (r: Lc)
      requires Valid() && (reg == 32 || reg == 64) && Below(x, b.next) && InRange(b.p, b.Snap(), x, reg)
      modifies b
      ensures Valid() && Pinned(b.p, old(b.Snap()), b.Snap()) && Below(r, b.next) && Flips(b.p, b.Snap(), x, reg, r)
    {
      hide Ordered, Indexed, Meets, Hinted, IsPrime, Pow2, Value, Eval, OkCaches, Extends, AllTaken, OkBounds, OkCache,
        OkArms, Cong, Live, AreBitsOf, OkNum, NumVal, LcMax, WordCmp, Completes, NoDivision, Unsolvable;
      ghost var c := b.Snap();
      PinnedSelf(b.p, c);
      var half := Pow2(reg - 1);
      if IsConst(x) {
        r := Const((x.constant % b.p + half) % Pow2(reg));
        FlipConst(b.p, c, x, reg, r);
        return;
      }
      var known := KnownBits(x, reg);
      if known.Some? {
        r := Sub(Add(x, Const(half)), Scale(known.value[reg - 1], Pow2(reg)));
        FlipTop(b.p, c, x, reg, known.value, r);
        return;
      }
      var lt := b.EmitLessThan(reg, x, Const(half), None);
      HalfInRange(b.p, c, reg);
      ghost var d := b.Snap();
      TightensSelf(b.p, c);
      ComparedPinned(b.p, c, c, d, x, Const(half), reg, reg);
      PinnedTightens(b.p, c, d);
      Kept(c);
      r := Sub(Add(x, Const(half)), Scale(Sub(Const(1), lt.value), Pow2(reg)));
      forall s: Assignment
        ensures Meets(b.p, d, s) ==>
          Value(b.p, lt.value, s) <= 1 && (Value(b.p, lt.value, s) == 1 <==> Value(b.p, x, s) < half)
      {
        ComparedBit(b.p, c, d, x, Const(half), reg, lt.value, s);
        HalfValue(b.p, reg, s);
      }
      FlipLess(b.p, c, d, x, reg, lt.value, r);
    }

    /** A bit: `x < y`, for operands below `2^n`. */
    method Less(n: nat, x: Lc, y: Lc) returns (lt: Lc)
      requires Valid() && 1 <= n <= 64 && Below(x, b.next) && Below(y, b.next) && InRange(b.p, b.Snap(), x, n)
        && InRange(b.p, b.Snap(), y, n)
      modifies b
      ensures Valid() && Pinned(b.p, old(b.Snap()), b.Snap()) && Below(lt, b.next) && Tells(b.p, b.Snap(), x, y, lt)
    {
      hide Ordered, Indexed, Meets, Hinted, IsPrime, Pow2, Value, Eval, OkCaches, Extends, AllTaken, OkBounds, OkCache,
        OkArms, Cong, Live, AreBitsOf, OkNum, NumVal, LcMax, WordCmp, Completes, NoDivision, Unsolvable;
      ghost var c := b.Snap();
      var r := b.EmitLessThan(n, x, y, None);
      ghost var d := b.Snap();
      TightensSelf(b.p, c);
      ComparedPinned(b.p, c, c, d, x, y, n, n);
      PinnedTightens(b.p, c, d);
      Kept(c);
      lt := r.value;
      forall s: Assignment | Meets(b.p, d, s)
        ensures Value(b.p, lt, s) == if Value(b.p, x, s) < Value(b.p, y, s) then 1 else 0
      {
        ComparedBit(b.p, c, d, x, y, n, lt, s);
      }
    }

    /** A comparison: decided by the operands' bounds, or a bit. */
    method CmpInts(o: S.Cmp, reg: nat, x: Num, y: Num) returns (r: Num)
      requires Valid() && (reg == 32 || reg == 64) && OkNum(b.p, b.Snap(), x, reg) && OkNum(b.p, b.Snap(), y, reg)
      modifies this`width, b
      ensures Valid() && Pinned(b.p, old(b.Snap()), b.Snap()) && Compares(b.p, b.Snap(), o, reg, x, y, r)
    {
      hide Ordered, Indexed, Meets, Hinted, IsPrime, Pow2, Value, Eval, OkCaches, Extends, AllTaken, OkBounds, OkCache,
        OkArms, Cong, Live, AreBitsOf, OkNum, NumVal, LcMax, WordCmp, Completes, NoDivision, Unsolvable;
      ghost var c := b.Snap();
      PinnedSelf(b.p, c);
      NumParts(b.p, c, x, reg);
      NumParts(b.p, c, y, reg);
      FactsHold();
      var (la, lb) := (LcOf(x), LcOf(y));
      var decided := DecidedCmp(Proven(), o, la, lb, b.next);
      if decided.Some? {
        DecidedCompares(b.p, c, Proven(), o, reg, x, y, b.next);
        return Num.Known(if decided.value then 1 else 0);
      }
      var lc := CmpForm(o, reg, x, y);
      ghost var d := b.Snap();
      ComparesBit(b.p, d, o, reg, x, y, lc);
      r := NewWire(lc, 1);
    }

    method CmpForm(o: S.Cmp, reg: nat, x: Num, y: Num) returns (lc: Lc)
      requires Valid() && (reg == 32 || reg == 64) && OkNum(b.p, b.Snap(), x, reg) && OkNum(b.p, b.Snap(), y, reg)
      modifies b
      ensures Valid() && Pinned(b.p, old(b.Snap()), b.Snap()) && Below(lc, b.next)
      ensures IsCmp(b.p, b.Snap(), o, reg, x, y, lc)
    {
      hide Ordered, Indexed, Meets, Hinted, IsPrime, Pow2, Value, Eval, OkCaches, Extends, AllTaken, OkBounds, OkCache,
        OkArms, Cong, Live, AreBitsOf, OkNum, NumVal, LcMax, WordCmp, Flips, Tells, IsCmp, InRange, Completes,
        NoDivision, Unsolvable;
      ghost var c := b.Snap();
      NumParts(b.p, c, x, reg);
      NumParts(b.p, c, y, reg);
      if o.Eq? || o.Ne? {
        var z := b.EmitIsZero(Sub(LcOf(x), LcOf(y)));
        PinnedTightens(b.p, c, b.Snap());
        Kept(c);
        EqualForm(b.p, c, b.Snap(), o, reg, x, y, z);
        return if o.Eq? then z else Sub(Const(1), z);
      }
      lc := OrderBit(o, reg, x, y);
    }

    method OrderBit(o: S.Cmp, reg: nat, x: Num, y: Num) returns (lc: Lc)
      requires Valid() && (reg == 32 || reg == 64) && OkNum(b.p, b.Snap(), x, reg) && OkNum(b.p, b.Snap(), y, reg)
        && !o.Eq? && !o.Ne?
      modifies b
      ensures Valid() && Pinned(b.p, old(b.Snap()), b.Snap()) && Below(lc, b.next)
      ensures IsCmp(b.p, b.Snap(), o, reg, x, y, lc)
    {
      hide Ordered, Indexed, Meets, Hinted, IsPrime, Pow2, Value, Eval, OkCaches, Extends, AllTaken, OkBounds, OkCache,
        OkArms, Cong, Live, AreBitsOf, OkNum, NumVal, LcMax, WordCmp, Flips, Tells, IsCmp, InRange, Completes,
        NoDivision, Unsolvable, Forces;
      ghost var c := b.Snap();
      NumParts(b.p, c, x, reg);
      NumParts(b.p, c, y, reg);
      var n := if WidthOf(x) > WidthOf(y) then WidthOf(x) else WidthOf(y);
      n := if n > 1 then n else 1;
      RangeWidens(b.p, c, LcOf(x), WidthOf(x), n);
      RangeWidens(b.p, c, LcOf(y), WidthOf(y), n);
      var (u, v) := (LcOf(x), LcOf(y));
      PinnedSelf(b.p, c);
      if Signed(o) && n >= reg {
        u, v := FlipBoth(u, v, reg);
        n := reg;
      }
      lc := OrderOf(o, reg, x, y, n, u, v, c);
    }

    method OrderOf(o: S.Cmp, reg: nat, x: Num, y: Num, n: nat, u: Lc, v: Lc, ghost c: Circuit) returns (lc: Lc)
      requires Valid() && (reg == 32 || reg == 64) && !o.Eq? && !o.Ne? && 1 <= n <= 64 && Below(u, b.next)
        && Below(v, b.next)
      requires Shaped(c) && Pinned(b.p, c, b.Snap()) && OkNum(b.p, c, x, reg) && OkNum(b.p, c, y, reg)
      requires OrderOperands(b.p, b.Snap(), o, reg, x, y, u, v) && InRange(b.p, b.Snap(), u, n)
        && InRange(b.p, b.Snap(), v, n)
      modifies b
      ensures Valid() && Pinned(b.p, c, b.Snap()) && Below(lc, b.next) && IsCmp(b.p, b.Snap(), o, reg, x, y, lc)
    {
      hide Ordered, Indexed, Meets, Hinted, IsPrime, Pow2, Value, Eval, OkCaches, Extends, OkBounds, OkCache, OkArms,
        OkNum, NumVal, WordCmp, Flips, Tells, IsCmp, InRange, OrderOperands, Completes, NoDivision, Unsolvable;
      ghost var e := b.Snap();
      var lt;
      if Swaps(o) {
        lt := Less(n, v, u);
      } else {
        lt := Less(n, u, v);
      }
      ghost var f := b.Snap();
      PinnedTrans(b.p, c, e, f);
      PinnedTightens(b.p, c, e);
      PinnedTightens(b.p, e, f);
      lc := if Negates(o) then Sub(Const(1), lt) else lt;
      OrderForm(b.p, c, e, f, o, reg, x, y, n, u, v, lt, lc);
    }

    method FlipBoth(x: Lc, y: Lc, reg: nat) returns (u: Lc, v: Lc)
      requires Valid() && (reg == 32 || reg == 64) && Below(x, b.next) && Below(y, b.next)
      requires InRange(b.p, b.Snap(), x, reg) && InRange(b.p, b.Snap(), y, reg)
      modifies b
      ensures Valid() && Pinned(b.p, old(b.Snap()), b.Snap()) && Below(u, b.next) && Below(v, b.next)
      ensures Flips(b.p, b.Snap(), x, reg, u) && Flips(b.p, b.Snap(), y, reg, v)
      ensures InRange(b.p, b.Snap(), u, reg) && InRange(b.p, b.Snap(), v, reg)
    {
      hide Ordered, Indexed, Meets, Hinted, IsPrime, Pow2, Value, Eval, OkCaches, Extends, AllTaken, OkBounds, OkCache,
        OkArms, Cong, Live, AreBitsOf, OkNum, NumVal, LcMax, WordCmp, Flips, Tells, IsCmp, InRange, Completes,
        NoDivision, Unsolvable;
      ghost var c := b.Snap();
      u := SignFlip(x, reg);
      ghost var d := b.Snap();
      RangeStays(b.p, c, d, y, reg);
      v := SignFlip(y, reg);
      ghost var e := b.Snap();
      PinnedTrans(b.p, c, d, e);
      PinnedTightens(b.p, d, e);
      FlipsStay(b.p, d, e, x, reg, u);
      FlipsRange(b.p, e, x, reg, u);
      FlipsRange(b.p, e, y, reg, v);
    }

    // ----- learned bounds -----

    /** The comparison `x o y` was just required to be `value`, in every solution: if it compares a bare
        variable with a constant, remember the bound. */
    method LearnBound(o: S.Cmp, x: Lc, y: Lc, value: bool)
      requires Valid() && forall s: Assignment :: Meets(b.p, b.Snap(), s) ==>
        S.CmpVal(o, Value(b.p, x, s), Value(b.p, y, s)) == value
      modifies this`max
      ensures Valid()
    {
      hide Ordered, Indexed, Meets, IsPrime, Pow2, Value, Eval, OkCaches, OkCache, OkArms;
      var bound := BoundOf(o, x, y, value);
      if bound.Some? {
        var (v, m) := bound.value;
        BoundHolds(b.p, b.Snap(), o, x, y, value);
        ghost var was := max;
        max := max[v := if v in max && max[v] <= m then max[v] else m];
        MaxLearned(b.p, b.Snap(), width, was, v, m, max);
      }
    }

    // ----- dispatch -----

    /** A two-operand integer instruction. */
    method IntBin(op: IntOp, reg: nat, x: Num, y: Num) returns (r: Result)
      requires Valid() && (reg == 32 || reg == 64) && OkNum(b.p, b.Snap(), x, reg) && OkNum(b.p, b.Snap(), y, reg)
      modifies this, b
      ensures Valid() && SameLits(old(arms), arms)
      ensures if IsDivOp(op) then PinnedDiv(b.p, old(b.Snap()), b.Snap(), old(arms), y)
              else Pinned(b.p, old(b.Snap()), b.Snap())
      ensures r.Done? ==> Answers(b.p, b.Snap(), op, reg, x, y, old(arms), r.n)
      ensures r.Diverging? <==> IsDivOp(op) && y == Num.Known(0)
      ensures r.Unsupported? <==> (op.ShrS? || op.Rotl? || op.Rotr?) && y.Wire?
      ensures r.Broken? ==> Unsolvable(b.p, old(b.Snap()))
    {
      hide Ordered, Indexed, Meets, Hinted, IsPrime, Pow2, Value, Eval, OkCaches, Extends, AllTaken, OkCache, OkArms,
        Cong, Live, AreBitsOf, OkNum, NumVal, LcMax, WordVal, Flips, Tells, IsCmp, Completes, NoDivision, Unsolvable,
        Pinned, PinnedDiv, Forces;
      ghost var c := b.Snap();
      PinnedSelf(b.p, c);
      NumParts(b.p, c, x, reg);
      var res: Option<Num>;
      match op {
        case Plain(Add) => res := AddInts(reg, x, y);
        case Plain(Sub) =>
          var n := SubInts(reg, x, y);
          res := Some(n);
        case Plain(Mul) => res := MulInts(reg, x, y);
        case Plain(Shl) =>
          if y.Wire? { res := ShiftByInts(S.Shl, reg, x, y); } else { res := ShlInts(reg, x, y); }
        case Plain(ShrU) =>
          if y.Wire? { res := ShiftByInts(S.ShrU, reg, x, y); } else { res := ShrInts(op, reg, x, y); }
        case Plain(DivU) =>
          r := DivOrRem(S.DivU, reg, x, y);
          return;
        case Plain(RemU) =>
          r := DivOrRem(S.RemU, reg, x, y);
          return;
        case Plain(o) => res := BitwiseInts(o, reg, x, y);
        case ShrS =>
          if y.Wire? {
            return Unsupported;
          }
          if WidthOf(x) >= reg { res := SarInts(reg, x, y); } else { res := ShrInts(op, reg, x, y); }
        case _ =>
          if y.Wire? {
            return Unsupported;
          }
          res := RotInts(op, reg, x, y);
      }
      r := match res case Some(n) => Done(n) case None => Broken;
    }

    method DivOrRem(o: S.Bin, reg: nat, x: Num, y: Num) returns (r: Result)
      requires Valid() && (reg == 32 || reg == 64) && OkNum(b.p, b.Snap(), x, reg) && OkNum(b.p, b.Snap(), y, reg)
      requires o.DivU? || o.RemU?
      modifies this, b
      ensures Valid() && PinnedDiv(b.p, old(b.Snap()), b.Snap(), old(arms), y) && SameLits(old(arms), arms)
      ensures r.Done? ==> Answers(b.p, b.Snap(), Plain(o), reg, x, y, old(arms), r.n)
      ensures (r.Diverging? <==> y == Num.Known(0)) && !r.Unsupported?
      ensures r.Broken? ==> Unsolvable(b.p, old(b.Snap()))
    {
      hide Ordered, Indexed, Meets, Hinted, IsPrime, Pow2, Value, Eval, OkCaches, Extends, AllTaken, OkCache, OkArms,
        Cong, Live, AreBitsOf, OkNum, NumVal, LcMax, WordVal, Flips, Tells, IsCmp, Completes, NoDivision, Unsolvable;
      ghost var c := b.Snap();
      PinnedSelf(b.p, c);
      if y == Num.Known(0) {
        return Diverging;
      }
      var k := if y.Known? then LogOf(y.k) else None;
      var res: Option<Num>;
      if k.Some? {
        LogBelow(b.p, c, y, reg, k.value);
        res := DivPow2Ints(o, reg, x, y, k.value);
        if res.Some? {
          KnownDivisor(b.p, b.Snap(), o, reg, x, y, arms, res.value);
        }
      } else {
        res := DivInts(o, reg, x, y);
        WhereTaken(b.p, b.Snap(), o, reg, x, y, old(arms), res.value);
      }
      r := match res case Some(n) => Done(n) case None => Broken;
    }
  }

  // ----- learned bounds -----

  predicate IsVar(x: Lc) {
    x.constant == 0 && |x.terms| == 1 && x.terms[0].coeff == 1
  }

  predicate IsBound(x: Lc) {
    IsConst(x) && IsI64(x.constant) && x.constant >= 0
  }

  /** The upper bound the outcome of a comparison gives a variable. */
  function BoundOf(o: S.Cmp, x: Lc, y: Lc, value: bool): Option<(nat, nat)> {
    var r: Option<(nat, int)> :=
      if IsVar(x) && IsBound(y) then
        if (o.LtU? && value) || (o.GeU? && !value) then Some((x.terms[0].v, y.constant - 1))
        else if (o.LeU? && value) || (o.GtU? && !value) then Some((x.terms[0].v, y.constant))
        else None
      else if IsVar(y) && IsBound(x) then
        if (o.GtU? && value) || (o.LeU? && !value) then Some((y.terms[0].v, x.constant - 1))
        else if (o.GeU? && value) || (o.LtU? && !value) then Some((y.terms[0].v, x.constant))
        else None
      else None;
    if r.Some? && r.value.1 >= 0 then Some((r.value.0, r.value.1)) else None
  }

  lemma BoundHolds(p: Prime, c: Circuit, o: S.Cmp, x: Lc, y: Lc, value: bool)
    requires p > Pow2(253) && Indexed(c) && BoundOf(o, x, y, value).Some?
    requires forall s: Assignment :: Meets(p, c, s) ==> S.CmpVal(o, Value(p, x, s), Value(p, y, s)) == value
    ensures var (v, m) := BoundOf(o, x, y, value).value; VarBelow(p, c, v, m + 1)
  {
    hide Indexed, Meets, IsPrime, Pow2, Value;
    var (v, m) := BoundOf(o, x, y, value).value;
    var (variable, bound) := if IsVar(x) && IsBound(y) then (x, y) else (y, x);
    forall s: Assignment | Meets(p, c, s)
      ensures s(v) % p < m + 1
    {
      VarValue(p, variable, s);
      ConstValue(p, bound, s);
    }
  }

  lemma VarValue(p: Prime, x: Lc, s: Assignment)
    requires IsVar(x)
    ensures Value(p, x, s) == s(x.terms[0].v) % p
  {
    assert x.terms[1..] == [];
    assert SumTerms(x.terms, s) == s(x.terms[0].v) + SumTerms(x.terms[1..], s);
  }

  lemma MaxLearned(p: Prime, c: Circuit, width: map<nat, nat>, max: map<nat, nat>, v: nat, m: nat, more: map<nat, nat>)
    requires Indexed(c) && OkBounds(p, c, width, max) && VarBelow(p, c, v, m + 1)
    requires more == max[v := if v in max && max[v] <= m then max[v] else m]
    ensures OkBounds(p, c, width, more)
  {
  }

  // ----- dispatch -----

  datatype Result = Done(n: Num) | Diverging | Unsupported | Broken

  predicate IsDivOp(op: IntOp) {
    op == Plain(S.DivU) || op == Plain(S.RemU)
  }

  /** A division by a constant power of two takes bits, in every arm; another is 0 where its arm is not taken. */
  predicate Gates(op: IntOp, y: Num) {
    IsDivOp(op) && !(y.Known? && LogOf(y.k).Some?)
  }

  /** `r` is the instruction's answer in every solution, and a division's divisor is then not 0; but a gated division
      is 0 where its arm is not taken. */
  ghost predicate Answers(p: Prime, c: Circuit, op: IntOp, reg: nat, x: Num, y: Num, arms: seq<Arm>, r: Num)
    requires Indexed(c) && reg > 0
  {
    && OkNum(p, c, r, reg)
    && forall s: Assignment :: Meets(p, c, s) ==>
         if Gates(op, y) && !AllTaken(p, arms, s) then NumVal(p, r, s) == 0
         else
           && (IsDivOp(op) ==> NumVal(p, y, s) != 0)
           && NumVal(p, r, s) == WordVal(op, reg, NumVal(p, x, s), NumVal(p, y, s))
  }

  lemma LogBelow(p: Prime, c: Circuit, y: Num, reg: nat, k: nat)
    requires Indexed(c) && y == Known(Pow2(k)) && OkNum(p, c, y, reg)
    ensures k < reg
  {
    if k >= reg {
      Pow2Mono(reg, k);
    }
  }

  lemma KnownDivisor(p: Prime, c: Circuit, o: S.Bin, reg: nat, x: Num, y: Num, arms: seq<Arm>, r: Num)
    requires Indexed(c) && reg > 0 && (o.DivU? || o.RemU?) && y.Known? && y.k != 0 && LogOf(y.k).Some?
      && Computes(p, c, Plain(o), reg, x, y, r)
    ensures Answers(p, c, Plain(o), reg, x, y, arms, r)
  {
    hide Indexed, Meets, Value, WordVal, AllTaken;
  }

  lemma WhereTaken(p: Prime, c: Circuit, o: S.Bin, reg: nat, x: Num, y: Num, arms: seq<Arm>, r: Num)
    requires Indexed(c) && reg > 0 && Gates(Plain(o), y) && DivComputes(p, c, o, reg, x, y, arms, r)
    ensures Answers(p, c, Plain(o), reg, x, y, arms, r)
  {
    hide Indexed, Meets, Value, WordVal, AllTaken;
  }
}
