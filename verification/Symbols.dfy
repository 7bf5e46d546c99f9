/** The constraints of the machine's other symbols: negations, boolean operations, selects, and words made of bytes. */
module Symbols {
  import opened Words
  import opened Fields
  import opened Linear
  import opened Circuits
  import opened Solving
  import opened Bits
  import opened Intervals
  import opened Recompose
  import opened WordOps
  import opened Nums
  import opened NumBits
  import opened Integers
  import S = SymValues

  // ----- bits -----

  lemma OneBit(p: Prime, c: Circuit, x: Num)
    requires p > Pow2(253) && Indexed(c) && OkNum(p, c, x, 1)
    ensures Below(LcOf(x), c.next) && IsBit(p, c, LcOf(x))
    ensures forall s: Assignment :: NumVal(p, x, s) == Value(p, LcOf(x), s)
    ensures forall s: Assignment :: Meets(p, c, s) ==> NumVal(p, x, s) <= 1
  {
    hide Meets, Value;
    NumParts(p, c, x, 1);
    assert Pow2(1) == 2 && Pow2(0) == 1;
    Pow2Mono(WidthOf(x), 1);
  }

  /** `1 − x`. */
  method LowerNot(ints: Integers, x: Num) returns (r: Num)
    requires ints.Valid() && OkNum(ints.b.p, ints.b.Snap(), x, 1)
    modifies ints`width
    ensures ints.Valid() && OkNum(ints.b.p, ints.b.Snap(), r, 1)
    ensures forall s: Assignment :: Meets(ints.b.p, ints.b.Snap(), s) ==>
      NumVal(ints.b.p, r, s) == 1 - NumVal(ints.b.p, x, s)
  {
    hide Ordered, Indexed, OkCaches, Meets, IsPrime, Eval, Value;
    ghost var (p, c) := (ints.b.p, ints.b.Snap());
    OneBit(p, c, x);
    var lc := Sub(Const(1), LcOf(x));
    forall s: Assignment | Meets(p, c, s)
      ensures Value(p, lc, s) == 1 - Value(p, LcOf(x), s)
    {
      assert Value(p, LcOf(x), s) <= 1;
      NotValue(p, LcOf(x), s);
    }
    assert Pow2(1) == 2;
    assert InRange(p, c, lc, 1);
    r := ints.NewWire(lc, 1);
  }

  lemma NotValue(p: Prime, x: Lc, s: Assignment)
    requires Value(p, x, s) <= 1
    ensures Value(p, Sub(Const(1), x), s) == 1 - Value(p, x, s)
  {
    hide Eval;
    var e := Eval(x, s);
    CongMod(p, e);
    CongSelf(p, 1);
    CongAdd(p, 1, 1, e % p, e);
    ModSmall(1 - e % p, p);
  }

  /** `x ∧ y`, `x ∨ y` or `x ⊕ y` of bits, by one row. */
  method LowerBool(ints: Integers, o: S.Bin, x: Num, y: Num) returns (r: Num)
    requires ints.Valid() && OkNum(ints.b.p, ints.b.Snap(), x, 1) && OkNum(ints.b.p, ints.b.Snap(), y, 1)
    modifies ints`width, ints.b
    ensures ints.Valid() && Pinned(ints.b.p, old(ints.b.Snap()), ints.b.Snap()) && OkNum(ints.b.p, ints.b.Snap(), r, 1)
    ensures forall s: Assignment :: Meets(ints.b.p, ints.b.Snap(), s) ==>
              NumVal(ints.b.p, r, s) == BitFn(o, NumVal(ints.b.p, x, s), NumVal(ints.b.p, y, s))
  {
    hide Ordered, Indexed, OkCaches, Meets, Hinted, IsPrime, Eval, Value, Extends, Pow2, Completes, NoDivision,
      Unsolvable;
    ghost var (p, c) := (ints.b.p, ints.b.Snap());
    OneBit(p, c, x);
    OneBit(p, c, y);
    var v;
    if o.And? {
      ints.b.ConsumePending(LcOf(x));
      ints.b.ConsumePending(LcOf(y));
      v := ints.b.EmitMul(LcOf(x), LcOf(y));
    } else if o.Or? {
      v := ints.b.EmitOr(LcOf(x), LcOf(y));
    } else {
      v := ints.b.EmitXor(LcOf(x), LcOf(y));
    }
    ghost var d := ints.b.Snap();
    PinnedTightens(p, c, d);
    ints.Kept(c);
    BitStays(p, c, d, LcOf(x));
    BitStays(p, c, d, LcOf(y));
    EmittedGate(p, d, o, LcOf(x), LcOf(y), v);
    GateBit(p, d, o, LcOf(x), LcOf(y), Var(v));
    r := ints.NewWire(Var(v), 1);
  }

  lemma GateBit(p: Prime, c: Circuit, o: S.Bin, x: Lc, y: Lc, r: Lc)
    requires Indexed(c) && GateValue(p, c, o, x, y, r)
    ensures InRange(p, c, r, 1)
  {
    hide Indexed, Meets, Value;
    assert Pow2(1) == 2;
  }

  // ----- selects -----

  /** `r` is `t` where `cond` is 1 and `e` where it is 0. */
  ghost predicate Muxes(p: Prime, c: Circuit, cond: Num, t: Num, e: Num, r: Num)
    requires Indexed(c)
  {
    forall s: Assignment :: Meets(p, c, s) ==> NumVal(p, r, s) == if NumVal(p, cond, s) == 1 then NumVal(p, t, s)
      else NumVal(p, e, s)
  }

  /** `e + cond · (t − e)`. */
  method LowerMux(ints: Integers, cond: Num, t: Num, e: Num, w: nat) returns (r: Num)
    requires ints.Valid() && OkNum(ints.b.p, ints.b.Snap(), cond, 1) && w <= 252
    requires OkNum(ints.b.p, ints.b.Snap(), t, w) && OkNum(ints.b.p, ints.b.Snap(), e, w)
    modifies ints.b
    ensures ints.Valid() && Pinned(ints.b.p, old(ints.b.Snap()), ints.b.Snap()) && OkNum(ints.b.p, ints.b.Snap(), r, w)
    ensures Muxes(ints.b.p, ints.b.Snap(), cond, t, e, r)
  {
    hide Ordered, Indexed, OkCaches, Meets, Hinted, IsPrime, Eval, Value, Extends, Pow2, OkNum, NumVal, Completes,
      NoDivision, Unsolvable;
    ghost var (p, c) := (ints.b.p, ints.b.Snap());
    PinnedSelf(p, c);
    NumParts(p, c, t, w);
    NumParts(p, c, e, w);
    OneBit(p, c, cond);
    var (a, b) := (LcOf(t), LcOf(e));
    if a == b {
      return e;
    }
    var v := ints.b.EmitMul(LcOf(cond), Sub(a, b));
    ghost var d := ints.b.Snap();
    PinnedTightens(p, c, d);
    ints.Kept(c);
    NumStays(p, c, d, cond, 1);
    NumStays(p, c, d, t, w);
    NumStays(p, c, d, e, w);
    var lc := Add(b, Var(v));
    r := Wire(lc, w);
    MuxForms(p, d, cond, t, e, w, v, lc);
  }

  lemma MuxForms(p: Prime, c: Circuit, cond: Num, t: Num, e: Num, w: nat, v: nat, lc: Lc)
    requires p > Pow2(253) && Indexed(c) && OkNum(p, c, cond, 1) && OkNum(p, c, t, w) && OkNum(p, c, e, w) && w <= 252
      && v < c.next
    requires lc == Add(LcOf(e), Var(v))
    requires forall s: Assignment :: Meets(p, c, s) ==>
      Cong(p, s(v), Eval(LcOf(cond), s) * Eval(Sub(LcOf(t), LcOf(e)), s))
    ensures OkNum(p, c, Wire(lc, w), w) && Muxes(p, c, cond, t, e, Wire(lc, w))
  {
    hide Indexed, Meets, Eval, Value, IsPrime, Pow2, OkNum, NumVal;
    NumParts(p, c, t, w);
    NumParts(p, c, e, w);
    OneBit(p, c, cond);
    forall s: Assignment | Meets(p, c, s)
      ensures Value(p, lc, s) == if NumVal(p, cond, s) == 1 then NumVal(p, t, s) else NumVal(p, e, s)
      ensures Value(p, lc, s) < Pow2(w)
    {
      assert NumVal(p, cond, s) <= 1;
      MuxValue(p, LcOf(cond), LcOf(t), LcOf(e), v, s);
      NumInRange(p, c, t, w, s);
      NumInRange(p, c, e, w, s);
    }
    MuxIs(p, c, cond, t, e, w, lc);
  }

  lemma MuxIs(p: Prime, c: Circuit, cond: Num, t: Num, e: Num, w: nat, lc: Lc)
    requires Indexed(c) && Below(lc, c.next)
    requires forall s: Assignment :: Meets(p, c, s) ==>
      Value(p, lc, s) < Pow2(w) && Value(p, lc, s) == if NumVal(p, cond, s) == 1 then NumVal(p, t, s)
        else NumVal(p, e, s)
    ensures OkNum(p, c, Wire(lc, w), w) && Muxes(p, c, cond, t, e, Wire(lc, w))
  {
    hide Indexed, Meets, Value;
  }

  lemma NumInRange(p: Prime, c: Circuit, x: Num, w: nat, s: Assignment)
    requires Indexed(c) && OkNum(p, c, x, w) && Meets(p, c, s)
    ensures NumVal(p, x, s) < Pow2(w)
  {
    hide Indexed, Meets, Value;
    if x.Wire? {
      Pow2Mono(x.width, w);
    }
  }

  lemma MuxValue(p: Prime, cond: Lc, t: Lc, e: Lc, v: nat, s: Assignment)
    requires Value(p, cond, s) <= 1 && Cong(p, s(v), Eval(cond, s) * Eval(Sub(t, e), s))
    ensures Value(p, Add(e, Var(v)), s) == if Value(p, cond, s) == 1 then Value(p, t, s) else Value(p, e, s)
  {
    hide Eval, IsPrime;
    var (k, x, y) := (Eval(cond, s), Eval(t, s), Eval(e, s));
    CongMod(p, k);
    CongMul(p, k, k % p, x - y, x - y);
    CongAdd(p, y, y, s(v), (k % p) * (x - y));
    assert (k % p) * (x - y) == if k % p == 1 then x - y else 0;
  }

  // ----- bytes -----

  /** `r` is byte `k` of `x`. */
  ghost predicate IsByte(p: Prime, c: Circuit, x: Num, k: nat, r: Lc)
    requires Indexed(c)
  {
    Below(r, c.next) && forall s: Assignment :: Meets(p, c, s) ==> Value(p, r, s) == ByteAt(NumVal(p, x, s), k)
  }

  /** Byte `k` of `x`: all of it, nothing, a split that costs no row, or some of its bits. `None` where no assignment
      is a solution. */
  method LowerByte(ints: Integers, x: Num, k: nat) returns (r: Option<Lc>)
    requires ints.Valid() && OkNum(ints.b.p, ints.b.Snap(), x, 252)
    modifies ints`cache, ints.b
    ensures ints.Valid() && Pinned(ints.b.p, old(ints.b.Snap()), ints.b.Snap())
    ensures r.Some? ==> IsByte(ints.b.p, ints.b.Snap(), x, k, r.value)
    ensures r.None? ==> Unsolvable(ints.b.p, old(ints.b.Snap()))
  {
    hide Ordered, Indexed, OkCaches, Meets, Hinted, IsPrime, Eval, Value, Extends, Pow2, OkNum, NumVal, SplitLc, IsByte,
      AreBitsOf, OkFacts, Ending, Completes, NoDivision, Unsolvable;
    ghost var (p, c) := (ints.b.p, ints.b.Snap());
    PinnedSelf(p, c);
    NumParts(p, c, x, 252);
    ints.FactsHold();
    var (lc, w) := (LcOf(x), WidthOf(x));
    if k == 0 && w <= 8 {
      WholeByte(p, c, x);
      return Some(lc);
    }
    if 8 * k >= w {
      NoByte(p, c, x, k);
      return Some(Const(0));
    }
    var high := SplitLc(ints.Proven(), lc, 8 * k, ints.b.next);
    if high.Some? {
      SplitBelowNext(ints.Proven(), lc, 8 * k, ints.b.next);
      var byte := SplitLc(ints.Proven(), high.value.1, 8, ints.b.next);
      if byte.Some? {
        SplitByte(p, c, ints.Proven(), x, k, ints.b.next, high.value.1, byte.value.0);
        return Some(byte.value.0);
      }
    }
    var bits := ints.BitsOf(lc, w);
    if bits.None? {
      return None;
    }
    var hi := if 8 * k + 8 < w then 8 * k + 8 else w;
    PinnedTightens(p, c, ints.b.Snap());
    NumStays(p, c, ints.b.Snap(), x, 252);
    BitsByte(p, ints.b.Snap(), x, k, bits.value, hi);
    r := Some(Recomposed(bits.value[8 * k..hi]));
  }

  lemma WholeByte(p: Prime, c: Circuit, x: Num)
    requires p > Pow2(253) && Indexed(c) && OkNum(p, c, x, 252) && WidthOf(x) <= 8
    ensures IsByte(p, c, x, 0, LcOf(x))
  {
    hide Indexed, Meets, Value, OkNum, NumVal;
    NumParts(p, c, x, 252);
    Pow2Mono(WidthOf(x), 8);
    assert Pow2(8) == 256;
  }

  lemma NoByte(p: Prime, c: Circuit, x: Num, k: nat)
    requires p > Pow2(253) && Indexed(c) && OkNum(p, c, x, 252) && 8 * k >= WidthOf(x)
    ensures IsByte(p, c, x, k, Const(0))
  {
    hide Indexed, Meets, Value, OkNum, NumVal, Pow2;
    NumParts(p, c, x, 252);
    Pow256IsPow2(k);
    Pow2Mono(WidthOf(x), 8 * k);
    forall s: Assignment | Meets(p, c, s)
      ensures Value(p, Const(0), s) == ByteAt(NumVal(p, x, s), k)
    {
      ByteAtHigh(NumVal(p, x, s), k, k);
      ZeroIs(p, s);
    }
  }

  lemma ZeroIs(p: Prime, s: Assignment)
    ensures Value(p, Const(0), s) == 0
  {
  }

  lemma SplitByte(p: Prime, c: Circuit, f: Facts, x: Num, k: nat, n: nat, high: Lc, byte: Lc)
    requires p > Pow2(253) && Indexed(c) && OkFacts(p, c, f) && Ending(f) && OkNum(p, c, x, 252) && n == c.next
    requires Below(LcOf(x), n) && Below(high, n)
    requires SplitLc(f, LcOf(x), 8 * k, n).Some? && SplitLc(f, LcOf(x), 8 * k, n).value.1 == high
    requires SplitLc(f, high, 8, n).Some? && SplitLc(f, high, 8, n).value.0 == byte
    ensures IsByte(p, c, x, k, byte)
  {
    hide Indexed, Meets, Value, OkNum, NumVal, Pow2, SplitLc, OkFacts, Ending;
    NumParts(p, c, x, 252);
    SplitBelowNext(f, high, 8, n);
    forall s: Assignment | Meets(p, c, s)
      ensures Value(p, byte, s) == ByteAt(NumVal(p, x, s), k)
    {
      SplitLcSound(p, c, f, LcOf(x), 8 * k, n, s);
      SplitLcSound(p, c, f, high, 8, n, s);
      ByteAtIs(NumVal(p, x, s), k);
    }
  }

  lemma BitsByte(p: Prime, c: Circuit, x: Num, k: nat, bits: seq<Lc>, hi: nat)
    requires p > Pow2(253) && Indexed(c) && OkNum(p, c, x, 252) && |bits| == WidthOf(x) && AllBelow(bits, c.next)
    requires Decomposed(p, c, LcOf(x), bits)
    requires 8 * k < WidthOf(x) && hi == if 8 * k + 8 < WidthOf(x) then 8 * k + 8 else WidthOf(x)
    ensures IsByte(p, c, x, k, Recomposed(bits[8 * k..hi]))
  {
    hide Indexed, Meets, Value, OkNum, NumVal, Pow2, AreBitsOf, Recomposed;
    NumParts(p, c, x, 252);
    RecomposedBelow(bits[8 * k..hi], c.next);
    forall s: Assignment | Meets(p, c, s)
      ensures Value(p, Recomposed(bits[8 * k..hi]), s) == ByteAt(NumVal(p, x, s), k)
    {
      BitsByteAt(p, Value(p, LcOf(x), s), k, bits, hi, s);
    }
  }

  lemma BitsByteAt(p: Prime, x: nat, k: nat, bits: seq<Lc>, hi: nat, s: Assignment)
    requires p > Pow2(253) && |bits| <= 252 && AreBitsOf(p, bits, x, s) && x < Pow2(|bits|)
    requires 8 * k < |bits| && hi == if 8 * k + 8 < |bits| then 8 * k + 8 else |bits|
    ensures Value(p, Recomposed(bits[8 * k..hi]), s) == ByteAt(x, k)
  {
    hide Value, Pow2, Recomposed, BitOf;
    Pow2Mono(|bits|, 253);
    RecomposedParts(p, x, bits, 8 * k, s);
    var high := bits[8 * k..];
    var h := Value(p, Recomposed(high), s);
    Pow2Mono(|high|, |bits|);
    CongSelf(p, Eval(Recomposed(high), s));
    SumOfBits(p, Recomposed(high), high, s);
    RecomposedParts(p, h, high, hi - 8 * k, s);
    assert high[..hi - 8 * k] == bits[8 * k..hi];
    ByteAtIs(x, k);
    if hi - 8 * k < 8 {
      Pow2Mono(hi - 8 * k, 8);
      ModSmall(h, Pow2(8));
      ModSmall(h, Pow2(hi - 8 * k));
    }
  }

  /** Byte `k` is what is left above the bytes below it, cut to one. */
  lemma {:induction false} ByteAtIs(x: nat, k: nat)
    ensures ByteAt(x, k) == x / Pow2(8 * k) % Pow2(8)
    decreases k
  {
    assert Pow2(8) == 256;
    if k > 0 {
      ByteAtIs(x / 256, k - 1);
      Pow2Add(8, 8 * (k - 1));
      assert 8 + 8 * (k - 1) == 8 * k;
      DivTwice(x, 256, Pow2(8 * (k - 1)));
    }
  }

  lemma DivTwice(x: nat, d: nat, m: nat)
    requires d > 0 && m > 0
    ensures d * m > 0 && x / d / m == x / (d * m)
  {
    var (q, r) := (x / d, x % d);
    var (a, b) := (q / m, q % m);
    assert x == d * (m * a + b) + r;
    assert d * (m * a + b) == a * (d * m) + d * b;
    assert d * b + r < d * m by { assert d * b <= d * (m - 1); assert d * (m - 1) == d * m - d; }
    ModUnique(x, d * m, a, d * b + r);
  }

  // ----- words of bytes -----

  /** The byte of a cell: a constant, or a byte of a num. */
  ghost function PieceAt(p: Prime, nums: seq<Num>, cell: S.Cell, s: Assignment): Byte {
    match cell.sb
    case None => cell.byte
    case Some(sb) => if sb.sym < |nums| then ByteAt(NumVal(p, nums[sb.sym], s), sb.k) else 0
  }

  ghost function PiecesAt(p: Prime, nums: seq<Num>, cells: seq<S.Cell>, s: Assignment): (r: seq<Byte>)
    ensures |r| == |cells| && forall i :: 0 <= i < |r| ==> r[i] == PieceAt(p, nums, cells[i], s)
  {
    seq<Byte>(|cells|, i requires 0 <= i < |cells| => PieceAt(p, nums, cells[i], s))
  }

  /** `lc` is the word the cells spell. */
  ghost predicate Spells(p: Prime, c: Circuit, nums: seq<Num>, cells: seq<S.Cell>, lc: Lc)
    requires Indexed(c)
  {
    Below(lc, c.next) && forall s: Assignment :: Meets(p, c, s) ==>
      Cong(p, Eval(lc, s), FromBytes(PiecesAt(p, nums, cells, s)))
  }

  ghost predicate OkNums(p: Prime, c: Circuit, nums: seq<Num>)
    requires Indexed(c)
  {
    forall i :: 1 <= i < |nums| ==> OkNum(p, c, nums[i], 64)
  }

  lemma NumsStay(p: Prime, c: Circuit, d: Circuit, nums: seq<Num>)
    requires Indexed(c) && Indexed(d) && Pinned(p, c, d) && OkNums(p, c, nums)
    ensures OkNums(p, d, nums)
  {
    hide Indexed, Meets;
    PinnedTightens(p, c, d);
    hide Pinned, Tightens, OkNum;
    forall i | 1 <= i < |nums|
      ensures OkNum(p, d, nums[i], 64)
    {
      NumStays(p, c, d, nums[i], 64);
    }
  }

  /** `Σ byteᵢ · 256ⁱ`. */
  method LowerBytes(ints: Integers, nums: seq<Num>, cells: seq<S.Cell>) returns (r: Option<Num>)
    requires ints.Valid() && OkNums(ints.b.p, ints.b.Snap(), nums) && |cells| <= 8
    requires forall i :: 0 <= i < |cells| && cells[i].sb.Some? ==> 0 < cells[i].sb.value.sym < |nums|
    modifies ints`cache, ints.b
    ensures ints.Valid() && Pinned(ints.b.p, old(ints.b.Snap()), ints.b.Snap())
    ensures r.Some? ==> OkNum(ints.b.p, ints.b.Snap(), r.value, 8 * |cells|)
    ensures r.Some? ==> forall s: Assignment :: Meets(ints.b.p, ints.b.Snap(), s) ==>
              NumVal(ints.b.p, r.value, s) == FromBytes(PiecesAt(ints.b.p, nums, cells, s))
    ensures r.None? ==> Unsolvable(ints.b.p, old(ints.b.Snap()))
  {
    hide Ordered, Indexed, OkCaches, Meets, Hinted, IsPrime, Eval, Value, Extends, Pow2, OkNum, OkNums, Spells, IsByte,
      Pow256, Cong, PiecesAt, Completes, NoDivision, Unsolvable;
    ghost var (p, c) := (ints.b.p, ints.b.Snap());
    PinnedSelf(p, c);
    NothingSpelt(p, c, nums, cells);
    var lc := Const(0);
    for i := 0 to |cells|
      invariant ints.Valid() && Pinned(p, c, ints.b.Snap()) && OkNums(p, ints.b.Snap(), nums)
      invariant Spells(p, ints.b.Snap(), nums, cells[..i], lc)
    {
      ghost var d := ints.b.Snap();
      var piece := Const(cells[i].byte);
      if cells[i].sb.Some? {
        var sb := cells[i].sb.value;
        NumWide(p, d, nums, sb.sym);
        var byte := LowerByte(ints, nums[sb.sym], sb.k);
        PinnedTrans(p, c, d, ints.b.Snap());
        NumsStay(p, d, ints.b.Snap(), nums);
        if byte.None? {
          UnsolvableBefore(p, c, d);
          return None;
        }
        SpellsStay(p, d, ints.b.Snap(), nums, cells[..i], lc);
        piece := byte.value;
      }
      OneMorePiece(p, ints.b.Snap(), nums, cells, i, lc, piece);
      lc := Add(lc, Scale(piece, Pow256(i)));
    }
    assert cells[..|cells|] == cells;
    SpeltWord(p, ints.b.Snap(), nums, cells, lc);
    r := Some(Wire(lc, 8 * |cells|));
  }

  lemma NumWide(p: Prime, c: Circuit, nums: seq<Num>, i: nat)
    requires Indexed(c) && OkNums(p, c, nums) && 0 < i < |nums|
    ensures OkNum(p, c, nums[i], 252)
  {
    hide Meets;
    Pow2Mono(64, 252);
  }

  lemma NothingSpelt(p: Prime, c: Circuit, nums: seq<Num>, cells: seq<S.Cell>)
    requires Indexed(c)
    ensures Spells(p, c, nums, cells[..0], Const(0))
  {
    hide Meets;
  }

  lemma SpellsStay(p: Prime, c: Circuit, d: Circuit, nums: seq<Num>, cells: seq<S.Cell>, lc: Lc)
    requires Indexed(c) && Indexed(d) && Pinned(p, c, d) && Spells(p, c, nums, cells, lc)
    ensures Spells(p, d, nums, cells, lc)
  {
    PinnedTightens(p, c, d);
    hide Indexed, Meets, Eval, Cong, Pinned;
  }

  lemma OneMorePiece(p: Prime, c: Circuit, nums: seq<Num>, cells: seq<S.Cell>, i: nat, lc: Lc, piece: Lc)
    requires Indexed(c) && i < |cells| && Spells(p, c, nums, cells[..i], lc)
    requires match cells[i].sb
      case None => piece == Const(cells[i].byte)
      case Some(sb) => sb.sym < |nums| && IsByte(p, c, nums[sb.sym], sb.k, piece)
    ensures Spells(p, c, nums, cells[..i + 1], Add(lc, Scale(piece, Pow256(i))))
  {
    hide Indexed, Meets, Eval, Cong, Pow256, PiecesAt;
    var more := Add(lc, Scale(piece, Pow256(i)));
    forall s: Assignment | Meets(p, c, s)
      ensures Cong(p, Eval(more, s), FromBytes(PiecesAt(p, nums, cells[..i + 1], s)))
    {
      PieceCong(p, c, nums, cells[i], piece, s);
      assert PiecesAt(p, nums, cells[..i + 1], s) == PiecesAt(p, nums, cells[..i], s) + [PieceAt(p, nums, cells[i], s)];
      AddPiece(p, lc, piece, PiecesAt(p, nums, cells[..i], s), PieceAt(p, nums, cells[i], s), s);
    }
  }

  lemma PieceCong(p: Prime, c: Circuit, nums: seq<Num>, cell: S.Cell, piece: Lc, s: Assignment)
    requires Indexed(c) && Meets(p, c, s)
    requires match cell.sb
      case None => piece == Const(cell.byte)
      case Some(sb) => sb.sym < |nums| && IsByte(p, c, nums[sb.sym], sb.k, piece)
    ensures Cong(p, Eval(piece, s), PieceAt(p, nums, cell, s))
  {
    hide Indexed, Meets, NumVal;
    CongMod(p, Eval(piece, s));
  }

  lemma AddPiece(p: Prime, lc: Lc, piece: Lc, bs: seq<Byte>, b: Byte, s: Assignment)
    requires Cong(p, Eval(lc, s), FromBytes(bs)) && Cong(p, Eval(piece, s), b)
    ensures Cong(p, Eval(Add(lc, Scale(piece, Pow256(|bs|))), s), FromBytes(bs + [b]))
  {
    hide Eval, IsPrime, FromBytes, Pow256;
    var m := Pow256(|bs|);
    FromBytesSnoc(bs, b);
    Pow256IsPow2(|bs|);
    CongSelf(p, m);
    CongMul(p, m, m, Eval(piece, s), b);
    CongAdd(p, Eval(lc, s), FromBytes(bs), m * Eval(piece, s), m * b);
    assert m * b == b * Pow2(8 * |bs|);
  }

  lemma SpeltWord(p: Prime, c: Circuit, nums: seq<Num>, cells: seq<S.Cell>, lc: Lc)
    requires p > Pow2(253) && Indexed(c) && |cells| <= 8 && Spells(p, c, nums, cells, lc)
    ensures OkNum(p, c, Wire(lc, 8 * |cells|), 8 * |cells|)
    ensures forall s: Assignment :: Meets(p, c, s) ==> Value(p, lc, s) == FromBytes(PiecesAt(p, nums, cells, s))
  {
    hide Indexed, Meets, Eval, Pow2, FromBytes, PiecesAt;
    forall s: Assignment | Meets(p, c, s)
      ensures Value(p, lc, s) == FromBytes(PiecesAt(p, nums, cells, s)) < Pow2(8 * |cells|)
    {
      FromBytesBound(PiecesAt(p, nums, cells, s));
      Pow256IsPow2(|cells|);
      Pow2Mono(8 * |cells|, 253);
      ModSmall(FromBytes(PiecesAt(p, nums, cells, s)), p);
    }
  }
}
