/** Bits of a field value: what the rows of a decomposition force. */
module Bits {
  import opened Words
  import opened Fields
  import opened Linear
  import opened Circuits

  /** The number with bits `v`, lowest first. */
  function BitSum(v: seq<nat>): nat {
    if v == [] then 0 else v[0] + 2 * BitSum(v[1..])
  }

  ghost predicate AreBits(v: seq<nat>) {
    forall i :: 0 <= i < |v| ==> v[i] <= 1
  }

  lemma {:induction false} BitSumBits(v: seq<nat>)
    requires AreBits(v)
    ensures BitSum(v) < Pow2(|v|)
    ensures forall i :: 0 <= i < |v| ==> BitOf(BitSum(v), i) == v[i]
  {
    if v != [] {
      BitSumBits(v[1..]);
      var x := BitSum(v[1..]);
      forall i | 0 <= i < |v|
        ensures BitOf(v[0] + 2 * x, i) == v[i]
      {
        if i > 0 {
          HalfBit(v[0] + 2 * x, i);
          assert (v[0] + 2 * x) / 2 == x;
          assert BitOf(x, i - 1) == v[1..][i - 1];
        }
      }
    }
  }

  /** Bit `i` is bit `i − 1` of the half. */
  lemma HalfBit(x: nat, i: nat)
    requires i > 0
    ensures BitOf(x, i) == BitOf(x / 2, i - 1)
  {
    DivTwice(x, 2, Pow2(i - 1));
  }

  lemma DivTwice(x: nat, a: nat, b: nat)
    requires a > 0 && b > 0
    ensures x / (a * b) == x / a / b
  {
    var (q, r) := (x / a, x % a);
    var (q', r') := (q / b, q % b);
    assert x == q' * (a * b) + (r' * a + r);
    assert r' * a + r < a * b by {
      assert r' * a <= (b - 1) * a;
    }
    ModUnique(x, a * b, q', r' * a + r);
  }

  function BitsOf(x: nat, n: nat): (v: seq<nat>)
    ensures |v| == n && AreBits(v)
  {
    if n == 0 then [] else [x % 2] + BitsOf(x / 2, n - 1)
  }

  lemma {:induction false} BitsOfSum(x: nat, n: nat)
    requires x < Pow2(n)
    ensures BitSum(BitsOf(x, n)) == x
    ensures forall i :: 0 <= i < n ==> BitsOf(x, n)[i] == BitOf(x, i)
  {
    hide BitOf;
    if n > 0 {
      BitsOfSum(x / 2, n - 1);
      assert BitsOf(x, n)[1..] == BitsOf(x / 2, n - 1);
      forall i | 0 <= i < n
        ensures BitsOf(x, n)[i] == BitOf(x, i)
      {
        if i > 0 {
          HalfBit(x, i);
        } else {
          LowestBit(x);
        }
      }
    }
  }

  lemma LowestBit(x: nat)
    ensures BitOf(x, 0) == x % 2
  {
  }

  // ----- a decomposition with a computed bit 0 -----

  /** Bits `1..k` sit in variables `base..`; what they weigh. */
  function HighSum(s: Assignment, base: nat, k: nat): int {
    if k <= 1 then 0 else HighSum(s, base, k - 1) + Pow2(k - 1) * s(base + k - 2)
  }

  ghost predicate HighBits(p: Prime, s: Assignment, base: nat, k: nat) {
    forall v :: base <= v < base + k - 1 ==> s(v) % p <= 1
  }

  ghost predicate HighHinted(p: Prime, s: Assignment, base: nat, k: nat, x: nat) {
    forall v :: base <= v < base + k - 1 ==> s(v) % p == BitOf(x, v - base + 1)
  }

  /** The bits as numbers: `low`, then the variables. */
  function Residues(p: Prime, low: nat, s: Assignment, base: nat, k: nat): (v: seq<nat>)
    requires k >= 1
    ensures |v| == k && v[0] == low
    ensures forall j :: 1 <= j < k ==> v[j] == s(base + j - 1) % p
  {
    [low] + seq(k - 1, j requires 0 <= j => s(base + j) % p)
  }

  lemma {:induction false} BitSumSnoc(v: seq<nat>, b: nat)
    ensures BitSum(v + [b]) == BitSum(v) + Pow2(|v|) * b
  {
    if v == [] {
      assert [b][1..] == [];
    } else {
      BitSumSnoc(v[1..], b);
      assert (v + [b])[1..] == v[1..] + [b];
      assert 2 * (Pow2(|v| - 1) * b) == Pow2(|v|) * b;
    }
  }

  lemma {:induction false} HighSumCong(p: Prime, low: nat, s: Assignment, base: nat, k: nat)
    requires k >= 1
    ensures Cong(p, low + HighSum(s, base, k), BitSum(Residues(p, low, s, base, k)))
  {
    if k == 1 {
      assert Residues(p, low, s, base, k)[1..] == [];
    } else {
      HighSumCong(p, low, s, base, k - 1);
      var (v, x) := (Residues(p, low, s, base, k - 1), s(base + k - 2));
      assert Residues(p, low, s, base, k) == v + [x % p];
      BitSumSnoc(v, x % p);
      CongMod(p, x);
      CongMul(p, Pow2(k - 1), Pow2(k - 1), x, x % p);
      CongAdd(p, low + HighSum(s, base, k - 1), BitSum(v), Pow2(k - 1) * x, Pow2(k - 1) * (x % p));
    }
  }

  /** Boolean high bits and a boolean remainder are the bits of a number below `2^n`: exactly one choice,
      and only for such a number. */
  lemma Decomposes(p: Prime, x: nat, low: nat, s: Assignment, base: nat, n: nat)
    requires 1 <= n && Pow2(n) <= p && x < p && low < p
    requires Cong(p, low, x - HighSum(s, base, n))
    ensures HighBits(p, s, base, n) && low <= 1 <==> x < Pow2(n) && HighHinted(p, s, base, n, x)
    ensures HighBits(p, s, base, n) && low <= 1 ==> low == BitOf(x, 0)
  {
    hide HighSum, BitSum, IsPrime, Pow2, Cong, BitOf;
    var v := Residues(p, low, s, base, n);
    SameSum(p, x, low, s, base, n);
    if HighBits(p, s, base, n) && low <= 1 {
      forall i | 0 <= i < n
        ensures v[i] <= 1
      {
        assert i > 0 ==> v[i] == s(base + i - 1) % p;
      }
      BitSumBits(v);
      CongSmall(p, x, BitSum(v));
      forall u | base <= u < base + n - 1
        ensures s(u) % p == BitOf(x, u - base + 1)
      {
        assert v[u - base + 1] == s(u) % p;
      }
    }
    if x < Pow2(n) && HighHinted(p, s, base, n, x) {
      RemainderIsBit(p, x, low, s, base, n);
    }
  }

  lemma SameSum(p: Prime, x: nat, low: nat, s: Assignment, base: nat, n: nat)
    requires 1 <= n && Cong(p, low, x - HighSum(s, base, n))
    ensures Cong(p, x, low + HighSum(s, base, n)) && Cong(p, x, BitSum(Residues(p, low, s, base, n)))
  {
    hide HighSum, BitSum, IsPrime;
    HighSumCong(p, low, s, base, n);
    var h := HighSum(s, base, n);
    CongAdd(p, low, x - h, h, h);
    assert x - h + h == x;
    assert Cong(p, low + h, x);
  }

  lemma RemainderIsBit(p: Prime, x: nat, low: nat, s: Assignment, base: nat, n: nat)
    requires 1 <= n && Pow2(n) <= p && x < Pow2(n) && low < p
    requires Cong(p, x, low + HighSum(s, base, n)) && HighHinted(p, s, base, n, x)
    ensures low == BitOf(x, 0) && HighBits(p, s, base, n)
  {
    hide HighSum, BitSum, IsPrime, Pow2, BitOf, Cong;
    var b := BitOf(x, 0);
    var v := Residues(p, b, s, base, n);
    BitsOfSum(x, n);
    forall j | 1 <= j < n
      ensures v[j] == BitOf(x, j)
    {
      assert s(base + j - 1) % p == BitOf(x, j);
    }
    assert v == BitsOf(x, n);
    HighSumCong(p, b, s, base, n);
    SameLow(p, x, low, b, HighSum(s, base, n));
    forall u | base <= u < base + n - 1
      ensures s(u) % p <= 1
    {
      assert v[u - base + 1] <= 1;
    }
  }

  lemma SameLow(p: Prime, x: nat, low: nat, b: nat, h: int)
    requires low < p && b < p && Cong(p, x, low + h) && Cong(p, b + h, x)
    ensures low == b
  {
    CongAdd(p, low + h, b + h, h, h);
    CongSmall(p, low, b);
  }

  /** `bits` are, in every field value, the low bits of `x`. */
  ghost predicate AreBitsOf(p: Prime, bits: seq<Lc>, x: nat, s: Assignment) {
    forall i :: 0 <= i < |bits| ==> Value(p, bits[i], s) == BitOf(x, i)
  }

  lemma {:induction false} HighSumAgrees(base: nat, k: nat, s: Assignment, s': Assignment)
    requires forall v: nat :: v < base + k - 1 ==> s(v) == s'(v)
    ensures HighSum(s, base, k) == HighSum(s', base, k)
  {
    if k > 1 {
      HighSumAgrees(base, k - 1, s, s');
    }
  }

  /** The computed bit 0 ends with the top bit's variable. */
  lemma ComputedBitEnds(x: Lc, low: Lc, base: nat, n: nat)
    requires n >= 2 && Below(x, base) && Below(low, base + n - 1)
    requires forall s: Assignment :: Eval(low, s) == Eval(x, s) - HighSum(s, base, n)
    ensures EndsIn(low, base + n - 2)
  {
    var top := base + n - 2;
    EvalBelow(x, base, Only(top), Zeros());
    HighSumAgrees(base, n - 1, Only(top), Zeros());
    assert Coeff(low, top) + Pow2(n - 1) == 0;
    LastVar(low, top, Only(top), Zeros());
    TermCoeff(low.terms, top);
  }

  /** The rows of a decomposition hold exactly for a value in range, with the hinted bits. */
  lemma DecompositionRows(p: Prime, x: Lc, low: Lc, s: Assignment, base: nat, n: nat)
    requires 1 <= n && Pow2(n) <= p && Eval(low, s) == Eval(x, s) - HighSum(s, base, n)
    ensures HighBits(p, s, base, n) && Value(p, low, s) <= 1
       <==> Value(p, x, s) < Pow2(n) && HighHinted(p, s, base, n, Value(p, x, s))
    ensures HighBits(p, s, base, n) && Value(p, low, s) <= 1 ==> Value(p, low, s) == BitOf(Value(p, x, s), 0)
  {
    hide Pow2, HighSum, IsPrime, BitOf;
    var (a, h) := (Eval(x, s), HighSum(s, base, n));
    CongMod(p, a);
    CongAdd(p, a, a % p, h, h);
    CongMod(p, a - h);
    Decomposes(p, Value(p, x, s), Value(p, low, s), s, base, n);
  }

  // ----- borrows -----

  /** Bit `n` of `a − b + 2^n` says whether `a ≥ b`. */
  lemma BorrowBit(n: nat, a: nat, b: nat)
    requires a < Pow2(n) && b < Pow2(n)
    ensures BitOf(a - b + Pow2(n), n) == if a >= b then 1 else 0
  {
    var w := Pow2(n);
    if a >= b {
      ModUnique(a - b + w, w, 1, a - b);
    } else {
      ModUnique(a - b + w, w, 0, a - b + w);
    }
  }

  /** `a − b + (1 − t)·2^n` is below `2^n` in the field for one bit `t` only: whether `a ≥ b`. */
  lemma BorrowUnique(p: Prime, n: nat, a: nat, b: nat, t: nat)
    requires 2 * Pow2(n) <= p && a < Pow2(n) && b < Pow2(n) && t <= 1
    ensures (a - b + (1 - t) * Pow2(n)) % p < Pow2(n) <==> t == if a >= b then 1 else 0
    ensures t == (if a >= b then 1 else 0) ==> (a - b + (1 - t) * Pow2(n)) % p == (a - b) % Pow2(n)
  {
    hide IsPrime, Pow2;
    var w := Pow2(n);
    var x := a - b + (1 - t) * w;
    assert (1 - t) * w == if t == 0 then w else 0;
    if x >= 0 {
      ModSmall(x, p);
    } else {
      ModUnique(x, p, -1, x + p);
    }
    if a >= b {
      ModSmall(a - b, w);
    } else {
      ModUnique(a - b, w, -1, a - b + w);
    }
  }

  /** The same for a difference and a bit that are only known modulo `p`. */
  lemma BorrowRows(p: Prime, n: nat, x: int, y: int, t: int, r: int)
    requires 2 * Pow2(n) <= p && x % p < Pow2(n) && y % p < Pow2(n) && t % p <= 1
    requires Cong(p, r, x - y + (1 - t) * Pow2(n))
    ensures r % p < Pow2(n) <==> t % p == BitOf((x - y + Pow2(n)) % p, n)
    ensures r % p < Pow2(n) ==> (t % p == if x % p >= y % p then 1 else 0) && r % p == (x % p - y % p) % Pow2(n)
  {
    hide IsPrime, Pow2, BitOf;
    var (a, b, u, w) := (x % p, y % p, t % p, Pow2(n));
    CongMod(p, x);
    CongMod(p, y);
    CongMod(p, t);
    CongAdd(p, x, a, y, b);
    CongAdd(p, 1, 1, t, u);
    CongMul(p, 1 - t, 1 - u, w, w);
    CongAdd(p, x - y, a - b, (1 - t) * w, (1 - u) * w);
    CongAdd(p, x - y, a - b, w, w);
    ModSmall(a - b + w, p);
    BorrowBit(n, a, b);
    BorrowUnique(p, n, a, b, u);
  }

  /** The two rows of the zero test leave one choice for the inverse. */
  lemma ZeroTest(p: Prime, a: int, v: int, o: int)
    requires Cong(p, o, 1 - a * v)
    ensures Divides(p, a * o) && Divides(p, v * o) <==> v % p == InverseOrZero(p, a)
    ensures v % p == InverseOrZero(p, a) ==> o % p == if Divides(p, a) then 1 else 0
  {
    ZeroProduct(p, a, o);
    ZeroProduct(p, v, o);
    ZeroProduct(p, a, v);
    ModSmall(1, p);
    if Divides(p, a) {
      CongAdd(p, 1, 1, a * v, 0);
      assert !Divides(p, o);
    } else {
      CongIff(p, 1, a * v);
      assert Divides(p, o) <==> Cong(p, a * v, 1);
      if Cong(p, a * v, 1) {
        InverseUnique(p, a, v);
      }
      if v % p == InverseOrZero(p, a) {
        CongMod(p, v);
        CongMul(p, a, a, v, v % p);
      }
    }
  }
}
