/** What the register operations are, without naming them: signed numbers for the arithmetic shift and the signed
    orders, single bits for shifts, rotations and bitwise operations, and division with remainder. */
module WordLaws {
  import opened Words
  import opened Fields
  import opened Circuits
  import opened Bits
  import opened WordOps
  import S = SymValues

  /** The number a register holds in two's complement. */
  function Signed(reg: nat, v: nat): int {
    if 2 * v < Pow2(reg) then v else v - Pow2(reg)
  }

  // ----- the arithmetic shift and signed orders -----

  /** `shr_s` divides the signed number by `2^y`, rounding down. */
  lemma ArithmeticShift(reg: nat, x: nat, y: nat)
    requires reg > 0 && x < Pow2(reg)
    ensures WordVal(ShrS, reg, x, y) < Pow2(reg)
    ensures Signed(reg, WordVal(ShrS, reg, x, y)) == Signed(reg, x) / Pow2(y % reg)
  {
    var k := y % reg;
    Pow2Add(k, reg - k);
    Pow2Mono(reg - k, reg);
    assert Pow2(reg - k) == 2 * Pow2(reg - k - 1);
    hide Pow2;
    var (d, m) := (Pow2(k), Pow2(reg - k - 1));
    QuotientHalves(x, d, m);
    if 2 * x >= Pow2(reg) {
      FloorShift(x, d, 2 * m, Quot(x, d));
    }
  }

  lemma QuotientHalves(x: nat, d: nat, m: nat)
    requires d > 0 && x < d * (2 * m)
    ensures Quot(x, d) < 2 * m && (2 * x < d * (2 * m) <==> Quot(x, d) < m)
  {
    var (q, r) := (Quot(x, d), x % d);
    assert x == d * q + r;
    assert d * (2 * m) == 2 * (d * m);
    if q >= m {
      TimesMono(m, q, d);
    } else {
      TimesMono(q + 1, m, d);
    }
    if q >= 2 * m {
      TimesMono(2 * m, q, d);
    }
  }

  lemma FloorShift(x: nat, d: nat, h: nat, q: nat)
    requires d > 0 && q == x / d
    ensures (x - d * h) / d == q - h
  {
    var r := x % d;
    assert x == d * q + r;
    assert d * (q - h) == d * q - d * h;
    assert x - d * h == d * (q - h) + r;
    FloorUnique(x - d * h, d, q - h, r);
  }

  lemma FloorUnique(x: int, d: nat, q: int, r: nat)
    requires d > 0 && x == d * q + r && r < d
    ensures x / d == q
  {
    ModUnique(x, d, q, r);
    var (q1, r1) := (x / d, x % d);
    assert d * q1 + r1 == x && r1 == r;
    assert d * (q1 - q) == 0;
  }

  /** Signed comparison is the order of signed numbers; the others are those of unsigned ones. */
  lemma SignedOrder(reg: nat, x: nat, y: nat)
    requires reg > 0 && x < Pow2(reg) && y < Pow2(reg)
    ensures WordCmp(S.LtS, reg, x, y) <==> Signed(reg, x) < Signed(reg, y)
    ensures WordCmp(S.GtS, reg, x, y) <==> Signed(reg, x) > Signed(reg, y)
    ensures WordCmp(S.LeS, reg, x, y) <==> Signed(reg, x) <= Signed(reg, y)
    ensures WordCmp(S.GeS, reg, x, y) <==> Signed(reg, x) >= Signed(reg, y)
    ensures WordCmp(S.LtU, reg, x, y) <==> x < y
    ensures WordCmp(S.GtU, reg, x, y) <==> x > y
    ensures WordCmp(S.LeU, reg, x, y) <==> x <= y
    ensures WordCmp(S.GeU, reg, x, y) <==> x >= y
    ensures WordCmp(S.Eq, reg, x, y) <==> x == y
    ensures WordCmp(S.Ne, reg, x, y) <==> x != y
  {
    hide Pow2, Flip;
    FlipValue(x, reg);
    FlipValue(y, reg);
  }

  // ----- arithmetic -----

  /** Sums, differences and products are those of signed numbers, as far as a register holds them. */
  lemma WrapsAround(reg: nat, x: nat, y: nat)
    requires reg > 0
    ensures var w := Pow2(reg);
      && Cong(w, WordVal(Plain(S.Add), reg, x, y), Signed(reg, x) + Signed(reg, y))
      && Cong(w, WordVal(Plain(S.Sub), reg, x, y), Signed(reg, x) - Signed(reg, y))
      && Cong(w, WordVal(Plain(S.Mul), reg, x, y), Signed(reg, x) * Signed(reg, y))
  {
    hide Pow2;
    var (w, a, b) := (Pow2(reg), Signed(reg, x), Signed(reg, y));
    var (i, j) := (if 2 * x < w then 0 else 1, if 2 * y < w then 0 else 1);
    Shifted(w, x + y, -(i + j));
    Shifted(w, x - y, j - i);
    Shifted(w, x * y, i * j * w - i * y - j * x);
    assert -(i + j) * w == -(i * w) - j * w && (j - i) * w == j * w - i * w;
    SignedProduct(x, y, i, j, w);
  }

  lemma SignedProduct(x: nat, y: nat, i: nat, j: nat, w: nat)
    requires i <= 1 && j <= 1
    ensures (x - i * w) * (y - j * w) == x * y + (i * j * w - i * y - j * x) * w
  {
    if i == 0 {
      assert x * (y - j * w) == x * y - j * x * w;
    } else if j == 0 {
      assert (x - w) * y == x * y - y * w;
    } else {
      assert (x - w) * (y - w) == x * y - x * w - y * w + w * w;
      assert (w - y - x) * w == w * w - y * w - x * w;
    }
  }

  lemma Shifted(w: nat, x: int, k: int)
    requires w > 0
    ensures Cong(w, x % w, x + k * w)
  {
    var (q, r) := (x / w, x % w);
    assert x + k * w == (q + k) * w + r;
    ModUnique(x + k * w, w, q + k, r);
    ModUnique(r, w, 0, r);
  }

  /** Quotient and remainder. */
  lemma Divides(reg: nat, x: nat, y: nat)
    requires reg > 0 && y > 0
    ensures x == WordVal(Plain(S.DivU), reg, x, y) * y + WordVal(Plain(S.RemU), reg, x, y)
    ensures WordVal(Plain(S.RemU), reg, x, y) < y
  {
  }

  // ----- bit by bit -----

  /** The bit an operation makes of two. */
  function BitMade(o: S.Bin, a: nat, b: nat): int {
    if o.And? then a * b else if o.Or? then a + b - a * b else (a + b) % 2
  }

  /** Bit `i` of a bitwise operation is the operation on bits `i`. */
  lemma {:induction false} BitwiseBits(o: S.Bin, x: nat, y: nat, n: nat, i: nat)
    requires i < n
    ensures BitOf(S.BitOp(o, x, y, n), i) == BitMade(o, BitOf(x, i), BitOf(y, i))
  {
    hide BitOf;
    var r := S.BitOp(o, x, y, n);
    if i == 0 {
      LowestBit(x);
      LowestBit(y);
      LowestBit(r);
    } else {
      BitwiseBits(o, x / 2, y / 2, n - 1, i - 1);
      HalfBit(x, i);
      HalfBit(y, i);
      HalfBit(r, i);
    }
  }

  /** Bits of `low + high · 2^k`. */
  lemma {:induction false} JoinedBit(low: nat, high: nat, k: nat, i: nat)
    requires low < Pow2(k)
    ensures BitOf(low + high * Pow2(k), i) == if i < k then BitOf(low, i) else BitOf(high, i - k)
    decreases k
  {
    hide BitOf;
    if k > 0 {
      var x := low + high * Pow2(k);
      assert Pow2(k) == 2 * Pow2(k - 1);
      assert high * Pow2(k) == 2 * (high * Pow2(k - 1));
      assert x / 2 == low / 2 + high * Pow2(k - 1) && x % 2 == low % 2;
      if i == 0 {
        LowestBit(x);
        LowestBit(low);
      } else {
        HalfBit(x, i);
        HalfBit(low, i);
        JoinedBit(low / 2, high, k - 1, i - 1);
      }
    } else {
      assert low == 0 && low + high * Pow2(0) == high;
    }
  }

  /** A number's bits below and from `k` on are those of its two parts. */
  lemma PartBits(x: nat, k: nat, i: nat)
    ensures BitOf(x, i) == if i < k then BitOf(x % Pow2(k), i) else BitOf(Quot(x, Pow2(k)), i - k)
  {
    hide BitOf, Pow2;
    var (q, r) := (Quot(x, Pow2(k)), x % Pow2(k));
    assert x == r + q * Pow2(k);
    JoinedBit(r, q, k, i);
  }

  /** A shift moves bits and brings in zeros. */
  lemma ShiftBits(reg: nat, x: nat, y: nat, i: nat)
    requires reg > 0 && x < Pow2(reg) && i < reg
    ensures var k := y % reg;
      && BitOf(WordVal(Plain(S.Shl), reg, x, y), i) == (if i < k then 0 else BitOf(x, i - k))
      && BitOf(WordVal(Plain(S.ShrU), reg, x, y), i) == (if i + k < reg then BitOf(x, i + k) else 0)
      && WordVal(Plain(S.Shl), reg, x, y) < Pow2(reg) && WordVal(Plain(S.ShrU), reg, x, y) < Pow2(reg)
  {
    hide BitOf, Pow2;
    var k := y % reg;
    PartBits(x * Pow2(k), reg, i);
    JoinedBit(0, x, k, i);
    ZeroBit(i);
    PartBits(x, k, i + k);
    NoHighBit(x, reg, i + k);
    Smaller(x, Pow2(k));
  }

  lemma {:induction false} ZeroBit(i: nat)
    ensures BitOf(0, i) == 0
  {
    if i > 0 {
      HalfBit(0, i);
      ZeroBit(i - 1);
    }
  }

  lemma NoHighBit(x: nat, n: nat, i: nat)
    requires x < Pow2(n)
    ensures n <= i ==> BitOf(x, i) == 0
  {
    if n <= i {
      Pow2Mono(n, i);
      ModUnique(x, Pow2(i), 0, x);
      assert x / Pow2(i) == 0;
    }
  }

  /** A rotation turns the bits round the register. */
  lemma RotateBits(reg: nat, x: nat, y: nat, i: nat)
    requires reg > 0 && x < Pow2(reg) && i < reg
    ensures var k := y % reg;
      && BitOf(WordVal(Rotl, reg, x, y), i) == BitOf(x, if i < k then i + reg - k else i - k)
      && BitOf(WordVal(Rotr, reg, x, y), i) == BitOf(x, if i + k < reg then i + k else i + k - reg)
  {
    hide BitOf, Pow2;
    var k := y % reg;
    ModSmall(k, reg);
    assert WordVal(Rotl, reg, x, y) == WordVal(Rotl, reg, x, k) && WordVal(Rotr, reg, x, y) == WordVal(Rotr, reg, x, k);
    RotateLeft(x, k, reg);
    RotateRight(x, k, reg);
    JoinedBit(x / Pow2(reg - k), x % Pow2(reg - k), k, i);
    JoinedBit(x / Pow2(k), x % Pow2(k), reg - k, i);
    PartBits(x, reg - k, if i < k then i + reg - k else i - k);
    PartBits(x, k, if i + k < reg then i + k else i + k - reg);
  }

  /** Powers of two are found, and only they. */
  lemma {:induction false} LogIsFound(m: nat, k: nat)
    ensures LogOf(m) == Some(k) <==> m == Pow2(k)
    decreases k
  {
    if m == Pow2(k) && k > 0 {
      LogIsFound(m / 2, k - 1);
    }
    if LogOf(m).Some? && LogOf(m).value == k {
      assert m == Pow2(k);
    }
  }
}
