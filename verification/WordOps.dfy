/** Register arithmetic: what each integer operation computes, and the identities its gadgets rest on. */
module WordOps {
  import opened Words
  import opened Fields
  import opened Circuits
  import opened Bits
  import S = SymValues

  /** The two-operand integer instructions; shifts and rotations take their amount modulo the register. */
  datatype IntOp = Plain(o: S.Bin) | ShrS | Rotl | Rotr

  function Quot(x: nat, d: nat): nat
    requires d > 0
  {
    x / d
  }

  /** The top `k` bits of a register. */
  function Ones(reg: nat, k: nat): nat
    requires k <= reg
  {
    Pow2Mono(reg - k, reg);
    Pow2(reg) - Pow2(reg - k)
  }

  function Lift(x: nat, k: nat): nat {
    x * Pow2(k)
  }

  /** On registers of `reg` bits (WebAssembly Core Specification 1.0, section 4.3.2); a division by zero,
      which traps, is given the value 0. */
  function PlainVal(o: S.Bin, reg: nat, x: nat, y: nat): nat
    requires reg > 0
  {
    match o
    case Add => (x + y) % Pow2(reg)
    case Sub => (x - y) % Pow2(reg)
    case Mul => (x * y) % Pow2(reg)
    case DivU => if y == 0 then 0 else Quot(x, y)
    case RemU => if y == 0 then 0 else x % y
    case Shl => Lift(x, y % reg) % Pow2(reg)
    case ShrU => Quot(x, Pow2(y % reg))
    case _ => S.BitOp(o, x, y, reg)
  }

  function WordVal(op: IntOp, reg: nat, x: nat, y: nat): nat
    requires reg > 0
  {
    var k := y % reg;
    match op
    case Plain(o) => PlainVal(o, reg, x, y)
    case ShrS => Quot(x, Pow2(k)) + (if 2 * x >= Pow2(reg) then Ones(reg, k) else 0)
    case Rotl => Lift(x, k) % Pow2(reg) + Quot(x, Pow2(reg - k))
    case Rotr => Quot(x, Pow2(k)) + Lift(x % Pow2(k), reg - k)
  }

  function WordCmp(o: S.Cmp, reg: nat, x: nat, y: nat): bool
    requires reg > 0
  {
    var (u, v) := (Flip(reg, x), Flip(reg, y));
    match o
    case LtS => u < v
    case GtS => u > v
    case LeS => u <= v
    case GeS => u >= v
    case _ => S.CmpVal(o, x, y)
  }

  /** `x` with its sign bit flipped. */
  function Flip(reg: nat, x: nat): nat
    requires reg > 0
  {
    (x + Pow2(reg - 1)) % Pow2(reg)
  }

  lemma Pow2Of32()
    ensures Pow2(32) == 0x1_0000_0000 && Pow2(31) == 0x8000_0000
  {
    assert Pow2(8) == 256;
    Pow2Add(8, 8);
    Pow2Add(16, 16);
    assert Pow2(32) == 2 * Pow2(31);
  }

  /** On 32-bit registers these are the operations of the symbolic machine. */
  lemma WordIsI32(o: S.Bin, x: nat, y: nat)
    requires x < Pow2(32) && y < Pow2(32)
    ensures WordVal(Plain(o), 32, x, y) == S.BinVal(o, x, y)
  {
    hide Pow2;
    Pow2Of32();
    var w := Pow2(32);
    if y > 0 {
      Smaller(x, y);
      ModSmall(x / y, w);
      ModSmall(x % y, w);
    }
    Smaller(x, Pow2(y % 32));
    ModSmall(x / Pow2(y % 32), w);
  }

  lemma Smaller(x: nat, y: nat)
    requires y > 0
    ensures x / y <= x && x % y < y
  {
    var q := x / y;
    AtLeast(y, q);
    assert y * q == q * y;
  }

  lemma CmpIsI32(o: S.Cmp, x: nat, y: nat)
    ensures WordCmp(o, 32, x, y) == S.CmpVal(o, x, y)
  {
    Pow2Of32();
  }

  // ----- bit by bit -----

  function BitFn(o: S.Bin, x: nat, y: nat): nat {
    var (p, q) := (x % 2 == 1, y % 2 == 1);
    if (if o.And? then p && q else if o.Or? then p || q else p != q) then 1 else 0
  }

  /** A word spelled by the operation's bits is the operation. */
  lemma {:induction false} BitwiseSum(o: S.Bin, x: nat, y: nat, v: seq<nat>)
    requires forall i :: 0 <= i < |v| ==> v[i] == BitFn(o, BitOf(x, i), BitOf(y, i))
    ensures BitSum(v) == S.BitOp(o, x, y, |v|)
  {
    hide BitOf;
    if v != [] {
      forall i | 0 <= i < |v| - 1
        ensures v[1..][i] == BitFn(o, BitOf(x / 2, i), BitOf(y / 2, i))
      {
        HalfBit(x, i + 1);
        HalfBit(y, i + 1);
      }
      BitwiseSum(o, x / 2, y / 2, v[1..]);
      LowestBit(x);
      LowestBit(y);
    }
  }

  /** Bits above both operands do not matter. */
  lemma {:induction false} BitwiseNarrow(o: S.Bin, x: nat, y: nat, n: nat, m: nat)
    requires x < Pow2(n) && y < Pow2(n) && n <= m
    ensures S.BitOp(o, x, y, m) == S.BitOp(o, x, y, n)
    decreases m
  {
    if m > 0 {
      BitwiseNarrow(o, x / 2, y / 2, if n > 0 then n - 1 else 0, m - 1);
    }
  }

  lemma {:induction false} AndBelow(x: nat, y: nat, n: nat, w: nat)
    requires x < Pow2(w) || y < Pow2(w)
    ensures S.BitOp(S.And, x, y, n) < Pow2(w)
    decreases n
  {
    if n > 0 {
      AndBelow(x / 2, y / 2, n - 1, if w > 0 then w - 1 else 0);
    }
  }

  /** A mask of `k` ones takes the low `k` bits. */
  lemma {:induction false} AndMask(x: nat, k: nat, n: nat)
    requires x < Pow2(n)
    ensures S.BitOp(S.And, x, Pow2(k) - 1, n) == x % Pow2(k) && S.BitOp(S.And, Pow2(k) - 1, x, n) == x % Pow2(k)
    decreases n
  {
    if n == 0 {
      ModSmall(0, Pow2(k));
    } else if k == 0 {
      AndZero(x, n);
    } else {
      assert Pow2(k) == 2 * Pow2(k - 1) && x / 2 < Pow2(n - 1);
      hide Pow2, S.BitOp;
      AndMask(x / 2, k - 1, n - 1);
      var w := Pow2(k - 1);
      OnesHalf(w);
      HalfMod(x, w);
      AndOdd(x, 2 * w - 1, n);
    }
  }

  lemma {:induction false} AndZero(x: nat, n: nat)
    ensures S.BitOp(S.And, x, 0, n) == 0 && S.BitOp(S.And, 0, x, n) == 0
    decreases n
  {
    if n > 0 {
      AndZero(x / 2, n - 1);
    }
  }

  lemma OnesHalf(w: nat)
    requires w > 0
    ensures (2 * w - 1) / 2 == w - 1 && (2 * w - 1) % 2 == 1
  {
  }

  lemma AndOdd(x: nat, y: nat, n: nat)
    requires n > 0 && y % 2 == 1
    ensures S.BitOp(S.And, x, y, n) == x % 2 + 2 * S.BitOp(S.And, x / 2, y / 2, n - 1)
    ensures S.BitOp(S.And, y, x, n) == x % 2 + 2 * S.BitOp(S.And, y / 2, x / 2, n - 1)
  {
  }

  lemma HalfMod(x: nat, w: nat)
    requires w > 0
    ensures x % (2 * w) == x % 2 + 2 * (x / 2 % w)
  {
    var (h, b) := (x / 2, x % 2);
    var (q, r) := (h / w, h % w);
    assert x == 2 * (q * w + r) + b == q * (2 * w) + (2 * r + b);
    ModUnique(x, 2 * w, q, 2 * r + b);
  }

  // ----- shifts -----

  /** Bits moved left by `k` and cut at the register, and the ones that fell off, put back on the right. */
  lemma RotateLeft(x: nat, k: nat, reg: nat)
    requires x < Pow2(reg) && k < reg
    ensures var (hi, lo) := (x / Pow2(reg - k), x % Pow2(reg - k));
      WordVal(Rotl, reg, x, k) == hi + lo * Pow2(k) && hi < Pow2(k)
  {
    hide Pow2;
    var (a, w) := (Pow2(reg - k), Pow2(k));
    Pow2Add(reg - k, k);
    var (hi, lo) := (x / a, x % a);
    assert x == hi * a + lo;
    QuotientBelow(x, a, w);
    assert x * w == hi * (a * w) + lo * w;
    assert lo * w <= (a - 1) * w;
    ModUnique(x * w, a * w, hi, lo * w);
    ModSmall(k, reg);
  }

  lemma RotateRight(x: nat, k: nat, reg: nat)
    requires x < Pow2(reg) && k < reg
    ensures var (hi, lo) := (x / Pow2(k), x % Pow2(k));
      WordVal(Rotr, reg, x, k) == hi + lo * Pow2(reg - k) && hi < Pow2(reg - k)
  {
    Pow2Add(k, reg - k);
    QuotientBelow(x, Pow2(k), Pow2(reg - k));
    ModSmall(k, reg);
  }

  /** The top bit of a full register is its sign. */
  lemma SignBit(x: nat, reg: nat)
    requires reg > 0 && x < Pow2(reg)
    ensures BitOf(x, reg - 1) == if 2 * x >= Pow2(reg) then 1 else 0
  {
    var h := Pow2(reg - 1);
    if x >= h {
      ModUnique(x, h, 1, x - h);
    } else {
      ModUnique(x, h, 0, x);
    }
  }

  /** Flipping the sign bit of a full register. */
  lemma FlipValue(x: nat, reg: nat)
    requires reg > 0 && x < Pow2(reg)
    ensures Flip(reg, x) == x + Pow2(reg - 1) - (if 2 * x >= Pow2(reg) then Pow2(reg) else 0) < Pow2(reg)
  {
    var (h, w) := (Pow2(reg - 1), Pow2(reg));
    if x >= h {
      ModUnique(x + h, w, 1, x - h);
    } else {
      ModUnique(x + h, w, 0, x + h);
    }
  }

  /** Below half the register, signed order is unsigned order. */
  lemma NarrowOrder(o: S.Cmp, x: nat, y: nat, reg: nat)
    requires reg > 0 && 2 * x < Pow2(reg) && 2 * y < Pow2(reg)
    ensures WordCmp(o, reg, x, y) == match o
      case LtS => x < y
      case GtS => x > y
      case LeS => x <= y
      case GeS => x >= y
      case _ => S.CmpVal(o, x, y)
  {
    FlipValue(x, reg);
    FlipValue(y, reg);
  }
}
