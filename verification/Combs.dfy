/**
 * Fixed-base comb tables: the entries a scalar's bytes select sum to a fixed multiple of the base point
 * minus a fixed offset, in any commutative group.
 */
module Combs {
  import opened Words
  import opened Fields
  import opened Groups
  import opened Fermat

  /** `2^e` modulo the order, by doubling. */
  method Pow2Mod(n: nat, e: nat) returns (s: nat)
    requires n > 1
    ensures s == Pow2(e) % n
  {
    s := 1;
    ModSmall(1, n);
    for i := 0 to e
      invariant s == Pow2(i) % n
    {
      Doubled(n, s, Pow2(i));
      s := (s + s) % n;
    }
  }

  lemma Doubled(n: nat, s: nat, x: nat)
    requires n > 0 && s == x % n
    ensures (s + s) % n == 2 * x % n
  {
    CongMod(n, x);
    CongAdd(n, s, x, s, x);
  }

  // ----- secp256k1 and P-256 -----

  /** The points a table is built from, and the exponent of the offset: 65 for secp256k1, 130 for P-256. */
  datatype Base<G> = Base(g: G, o: G, h: G, e: nat)

  /** Where window `j` starts: `2^j·H`, but in window 0 what cancels every offset but `O`'s. */
  ghost function Start<G(!new)>(g: Group<G>, b: Base<G>, j: nat): G {
    if j == 0 then g.add(g.neg(Times(g, Pow2(b.e), b.o)), g.neg(Times(g, Pow2(32) - 2, b.h)))
    else Times(g, Pow2(j), b.h)
  }

  ghost function Entry<G(!new)>(g: Group<G>, b: Base<G>, j: nat, v: nat): G {
    g.add(Start(g, b, j), Times(g, v * Pow2(8 * j + 1), b.g))
  }

  /** Row `j` of the tables. */
  ghost predicate IsWindow<G(!new)>(g: Group<G>, b: Base<G>, j: nat, row: seq<G>) {
    |row| == 256 && forall v :: 0 <= v < 256 ==> row[v] == Entry(g, b, j, v)
  }

  /** Build the 32 tables of 256 entries, with scalars modulo the order `n`. */
  method BuildComb<G(!new)>(g: Group<G>, n: nat, b: Base<G>) returns (comb: seq<seq<G>>)
    requires IsGroup(g) && HasOrder(g, n) && n > Pow2(32)
    ensures |comb| == 32 && forall j :: 0 <= j < 32 ==> IsWindow(g, b, j, comb[j])
  {
    hide IsGroup, HasOrder, IsWindow, Pow2;
    comb := [];
    while |comb| < 32
      invariant |comb| <= 32 && forall j :: 0 <= j < |comb| ==> IsWindow(g, b, j, comb[j])
    {
      var row := BuildWindow(g, n, b, |comb|);
      comb := comb + [row];
    }
  }

  method BuildWindow<G(!new)>(g: Group<G>, n: nat, b: Base<G>, j: nat) returns (row: seq<G>)
    requires IsGroup(g) && HasOrder(g, n) && n > Pow2(32)
    ensures IsWindow(g, b, j, row)
  {
    hide Pow2, IsGroup, HasOrder, Start, Times;
    var t := WindowStart(g, n, b, j);
    var k := Pow2Mod(n, 8 * j + 1);
    TimesMod(g, n, Pow2(8 * j + 1), b.g);
    var base := Times(g, k, b.g);
    row := [];
    NoSteps(g, t, Pow2(8 * j + 1), b.g);
    while |row| < 256
      invariant |row| <= 256 && t == Entry(g, b, j, |row|)
      invariant forall v :: 0 <= v < |row| ==> row[v] == Entry(g, b, j, v)
    {
      OneStep(g, Start(g, b, j), |row|, Pow2(8 * j + 1), b.g);
      row := row + [t];
      t := g.add(t, base);
    }
  }

  method WindowStart<G(!new)>(g: Group<G>, n: nat, b: Base<G>, j: nat) returns (t: G)
    requires IsGroup(g) && HasOrder(g, n) && n > Pow2(32)
    ensures t == Start(g, b, j)
  {
    hide IsGroup, HasOrder, Times, Pow2;
    AtLeastTwo(32);
    if j == 0 {
      var k := Pow2Mod(n, b.e);
      var m := Pow2Mod(n, 32);
      TimesMod(g, n, Pow2(b.e), b.o);
      ModSmall(Pow2(32), n);
      t := g.add(g.neg(Times(g, k, b.o)), g.neg(Times(g, m - 2, b.h)));
    } else {
      var k := Pow2Mod(n, j);
      TimesMod(g, n, Pow2(j), b.h);
      t := Times(g, k, b.h);
    }
  }

  lemma AtLeastTwo(k: nat)
    requires k > 0
    ensures Pow2(k) >= 2
  {
  }

  lemma NoSteps<G(!new)>(g: Group<G>, t: G, k: nat, x: G)
    requires IsGroup(g)
    ensures t == g.add(t, Times(g, 0 * k, x))
  {
    Unit(g, t);
    assert 0 * k == 0;
  }

  lemma OneStep<G(!new)>(g: Group<G>, t: G, v: nat, k: nat, x: G)
    requires IsGroup(g)
    ensures g.add(g.add(t, Times(g, v * k, x)), Times(g, k, x)) == g.add(t, Times(g, (v + 1) * k, x))
  {
    hide IsGroup, Times;
    assert (v + 1) * k == v * k + k;
    TimesAdd(g, v * k, k, x);
    Assoc(g, t, Times(g, v * k, x), Times(g, k, x));
  }

  /** The entries the bytes `c` select. */
  ghost function Selected<G(!new)>(g: Group<G>, b: Base<G>, c: seq<Byte>): seq<G> {
    seq(|c|, j requires 0 <= j < |c| => Entry(g, b, j, c[j]))
  }

  lemma NoBytes()
    ensures FromBytes([]) == 0
  {
  }

  lemma DoubleWeight(x: nat, k: nat)
    ensures 2 * (x * Pow2(k)) == x * Pow2(k + 1)
  {
    var w := Pow2(k);
    assert Pow2(k + 1) == 2 * w;
    assert 2 * (x * w) == x * (2 * w);
  }

  lemma TwiceBytes(c: seq<Byte>, x: Byte)
    ensures 2 * FromBytes(c + [x]) == 2 * FromBytes(c) + x * Pow2(8 * |c| + 1)
  {
    hide FromBytes, Pow2;
    var w := x * Pow2(8 * |c|);
    FromBytesSnoc(c, x);
    DoubleWeight(x, 8 * |c|);
    assert 2 * (FromBytes(c) + w) == 2 * FromBytes(c) + 2 * w;
  }

  /** After `k` windows: twice the scalar so far, the offsets of windows `1..k`, and window 0's. */
  lemma {:induction false} PartialSum<G(!new)>(g: Group<G>, b: Base<G>, c: seq<Byte>)
    requires IsGroup(g) && c != []
    ensures Sum(g, Selected(g, b, c))
         == g.add(Times(g, 2 * FromBytes(c), b.g), g.add(Start(g, b, 0), Times(g, Pow2(|c|) - 2, b.h)))
  {
    hide IsGroup, Start, Times, Pow2, FromBytes;
    var (k, xs) := (|c| - 1, Selected(g, b, c));
    var (most, x) := (c[..k], c[k]);
    assert c == most + [x];
    assert xs[..k] == Selected(g, b, most);
    var y := Times(g, x * Pow2(8 * k + 1), b.g);
    TwiceBytes(most, x);
    TimesAdd(g, 2 * FromBytes(most), x * Pow2(8 * k + 1), b.g);
    if k == 0 {
      assert most == [] && FromBytes([]) == 0 by { NoBytes(); }
      FirstWindow(g, Start(g, b, 0), y, b.h, b.g);
    } else {
      PartialSum(g, b, most);
      LaterStart(g, b, k);
      NextWindow(g, Times(g, 2 * FromBytes(most), b.g), Start(g, b, 0), b.h, k, y);
    }
  }

  lemma LaterStart<G(!new)>(g: Group<G>, b: Base<G>, k: nat)
    requires k > 0
    ensures Start(g, b, k) == Times(g, Pow2(k), b.h)
  {
  }

  lemma FirstWindow<G(!new)>(g: Group<G>, t: G, y: G, h: G, x: G)
    requires IsGroup(g)
    ensures g.add(g.zero, g.add(t, y)) == g.add(g.add(Times(g, 0, x), y), g.add(t, Times(g, Pow2(1) - 2, h)))
  {
    assert Pow2(1) == 2 && Times(g, 0, x) == g.zero && Times(g, 0, h) == g.zero;
    Unit(g, g.add(t, y));
    Unit(g, y);
    Unit(g, t);
    Comm(g, t, y);
  }

  lemma NextWindow<G(!new)>(g: Group<G>, a: G, t: G, h: G, k: nat, y: G)
    requires IsGroup(g) && k > 0
    ensures g.add(g.add(a, g.add(t, Times(g, Pow2(k) - 2, h))), g.add(Times(g, Pow2(k), h), y))
         == g.add(g.add(a, y), g.add(t, Times(g, Pow2(k + 1) - 2, h)))
  {
    hide IsGroup, Times;
    var (u, w) := (Times(g, Pow2(k) - 2, h), Times(g, Pow2(k), h));
    TimesAdd(g, Pow2(k) - 2, Pow2(k), h);
    assert Pow2(k) - 2 + Pow2(k) == Pow2(k + 1) - 2;
    Comm(g, w, y);
    Swap(g, a, g.add(t, u), y, w);
    Assoc(g, t, u, w);
  }

  /** For every 256-bit scalar `C`, the entries its bytes select sum to `2C·G − 2^e·O`. */
  lemma CombSum<G(!new)>(g: Group<G>, b: Base<G>, c: seq<Byte>)
    requires IsGroup(g) && |c| == 32
    ensures Sum(g, Selected(g, b, c)) == g.add(Times(g, 2 * FromBytes(c), b.g), g.neg(Times(g, Pow2(b.e), b.o)))
  {
    hide IsGroup, Times, Pow2;
    AtLeastTwo(32);
    PartialSum(g, b, c);
    var (o, h) := (Times(g, Pow2(b.e), b.o), Times(g, Pow2(32) - 2, b.h));
    Assoc(g, g.neg(o), g.neg(h), h);
    Inverse(g, h);
    Unit(g, g.neg(o));
  }

  // ----- Ed25519 -----

  /** `k >> i` */
  function Shr(k: nat, i: nat): nat {
    if i == 0 then k else Shr(k / 2, i - 1)
  }

  lemma {:induction false} ShrAll(k: nat, bits: nat)
    requires k < Pow2(bits)
    ensures Shr(k, bits) == 0
  {
    if bits > 0 {
      ShrAll(k / 2, bits - 1);
    }
  }

  lemma NoTimes<G(!new)>(g: Group<G>, x: G)
    ensures Times(g, 0, x) == g.zero
  {
  }

  /** `k·x`, by doubling and adding from the top bit. */
  method Mul<G(!new)>(g: Group<G>, bits: nat, k: nat, x: G) returns (acc: G)
    requires IsGroup(g) && k < Pow2(bits)
    ensures acc == Times(g, k, x)
  {
    hide IsGroup, Pow2, Times, Shr;
    assert Shr(k, bits) == 0 by { ShrAll(k, bits); }
    NoTimes(g, x);
    acc := g.zero;
    var i := bits;
    while i > 0
      invariant 0 <= i <= bits && acc == Times(g, Shr(k, i), x)
    {
      i := i - 1;
      DoubleAndAdd(g, Shr(k, i + 1), x);
      TopBits(k, i);
      acc := g.add(acc, acc);
      if Shr(k, i) % 2 == 1 {
        acc := g.add(acc, x);
      }
    }
    NoShift(k);
  }

  lemma DoubleAndAdd<G(!new)>(g: Group<G>, k: nat, x: G)
    requires IsGroup(g)
    ensures g.add(Times(g, k, x), Times(g, k, x)) == Times(g, 2 * k, x)
    ensures g.add(Times(g, 2 * k, x), x) == Times(g, 2 * k + 1, x)
  {
    hide IsGroup;
    TimesAdd(g, k, k, x);
    TimesAdd(g, 2 * k, 1, x);
    TimesOne(g, x);
  }

  lemma NoShift(k: nat)
    ensures Shr(k, 0) == k
  {
  }

  lemma {:induction false} TopBits(k: nat, i: nat)
    ensures Shr(k, i) == 2 * Shr(k, i + 1) + Shr(k, i) % 2
  {
    if i > 0 {
      TopBits(k / 2, i - 1);
    } else {
      assert Shr(k, 1) == Shr(k / 2, 0);
    }
  }

  /** Entry `k % 256` of window `k / 256`. */
  ghost function PointAt<G(!new)>(g: Group<G>, base0: G, k: nat): G {
    Times(g, (k % 256) * Pow2(8 * (k / 256)), base0)
  }

  ghost predicate ArePoints<G(!new)>(g: Group<G>, base0: G, pts: seq<G>) {
    forall k :: 0 <= k < |pts| ==> pts[k] == PointAt(g, base0, k)
  }

  /** The points of the tables: 32 windows of 256 multiples, the base doubled eight times in between. */
  method BuildPoints<G(!new)>(g: Group<G>, base0: G) returns (pts: seq<G>)
    requires IsGroup(g)
    ensures |pts| == 32 * 256 && ArePoints(g, base0, pts)
  {
    hide IsGroup, Times, Pow2, PointAt;
    pts := [];
    var (base, j) := (base0, 0);
    NoScale(g, base0);
    while j < 32
      invariant 0 <= j <= 32 && |pts| == 256 * j && base == Times(g, Pow2(8 * j), base0) && ArePoints(g, base0, pts)
    {
      pts := Window(g, pts, base0, base, j);
      base := Raise(g, base, base0, 8 * j);
      j := j + 1;
    }
  }

  lemma NoScale<G(!new)>(g: Group<G>, x: G)
    requires IsGroup(g)
    ensures x == Times(g, Pow2(0), x)
  {
    TimesOne(g, x);
  }

  method Window<G(!new)>(g: Group<G>, pts: seq<G>, base0: G, base: G, j: nat) returns (more: seq<G>)
    requires IsGroup(g) && |pts| == 256 * j && base == Times(g, Pow2(8 * j), base0) && ArePoints(g, base0, pts)
    ensures |more| == 256 * (j + 1) && ArePoints(g, base0, more)
  {
    hide IsGroup, Times, Pow2, PointAt;
    more := pts;
    var (e, v) := (g.zero, 0);
    NoTimes(g, base0);
    while v < 256
      invariant 0 <= v <= 256 && |more| == |pts| + v && ArePoints(g, base0, more)
        && e == Times(g, v * Pow2(8 * j), base0)
    {
      PointOf(g, base0, j, v);
      more := more + [e];
      assert (v + 1) * Pow2(8 * j) == v * Pow2(8 * j) + Pow2(8 * j);
      TimesAdd(g, v * Pow2(8 * j), Pow2(8 * j), base0);
      e := g.add(e, base);
      v := v + 1;
    }
  }

  lemma PointOf<G(!new)>(g: Group<G>, base0: G, j: nat, v: nat)
    requires v < 256
    ensures PointAt(g, base0, 256 * j + v) == Times(g, v * Pow2(8 * j), base0)
  {
  }

  /** Eight doublings. */
  method Raise<G(!new)>(g: Group<G>, base: G, base0: G, k: nat) returns (next: G)
    requires IsGroup(g) && base == Times(g, Pow2(k), base0)
    ensures next == Times(g, Pow2(k + 8), base0)
  {
    hide IsGroup, Times;
    next := base;
    for i := 0 to 8
      invariant next == Times(g, Pow2(k + i), base0)
    {
      TimesAdd(g, Pow2(k + i), Pow2(k + i), base0);
      next := g.add(next, next);
    }
  }

  ghost function Picked<G(!new)>(pts: seq<G>, c: seq<Byte>): seq<G>
    requires |pts| >= 256 * |c|
  {
    seq(|c|, j requires 0 <= j < |c| => pts[256 * j + c[j]])
  }

  lemma {:induction false} PickedSum<G(!new)>(g: Group<G>, base0: G, pts: seq<G>, c: seq<Byte>)
    requires IsGroup(g) && |pts| >= 256 * |c| && ArePoints(g, base0, pts)
    ensures Sum(g, Picked(pts, c)) == Times(g, FromBytes(c), base0)
  {
    hide IsGroup, Times, Pow2, PointAt, FromBytes;
    if c == [] {
      NoBytes();
      NoTimes(g, base0);
    } else {
      var k := |c| - 1;
      var (most, x) := (c[..k], c[k]);
      PickedSum(g, base0, pts, most);
      assert c == most + [x];
      FromBytesSnoc(most, x);
      assert Picked(pts, c)[..k] == Picked(pts, most);
      PointOf(g, base0, k, x);
      TimesAdd(g, FromBytes(most), x * Pow2(8 * k), base0);
    }
  }

  /** `2·4⁻ᵐ mod L`, the inverse as a power; `m` is 65 for Ed25519. */
  function BaseScalar(l: Prime, m: nat): (k: nat)
    requires l > 4
    ensures k < l
  {
    PowerPositive(4, m);
    PowerNat(Power(4, m) % l, l - 2);
    Power(Power(4, m) % l, l - 2) % l * 2 % l
  }

  /** With `base0 = (2·4⁻ᵐ mod L)·G`, the entries the bytes of any `W` select sum to the point that `4ᵐ`
      takes to `2W·G`. */
  lemma EdwardsSum<G(!new)>(g: Group<G>, l: Prime, m: nat, x: G, base0: G, pts: seq<G>, c: seq<Byte>)
    requires IsGroup(g) && HasOrder(g, l) && l > 4 && |pts| == 32 * 256 && |c| == 32
    requires base0 == Times(g, BaseScalar(l, m), x) && ArePoints(g, base0, pts)
    ensures Power(4, m) >= 0 && Times(g, Power(4, m), Sum(g, Picked(pts, c))) == Times(g, 2 * FromBytes(c), x)
  {
    hide Power, IsGroup, HasOrder, Times, BaseScalar;
    PickedSum(g, base0, pts, c);
    PowerPositive(4, m);
    FourInverts(l, m);
    TimesScalars(g, l, Power(4, m), FromBytes(c), BaseScalar(l, m), x);
  }

  /** The base point scaled, and the tables built from it: every scalar's entries sum as `EdwardsSum` says. */
  method BuildEdwards<G(!new)>(g: Group<G>, l: Prime, m: nat, bits: nat, x: G) returns (pts: seq<G>)
    requires IsGroup(g) && HasOrder(g, l) && 4 < l <= Pow2(bits)
    ensures |pts| == 32 * 256 && Power(4, m) >= 0
    ensures forall c: seq<Byte> :: |c| == 32 ==>
      Times(g, Power(4, m), Sum(g, Picked(pts, c))) == Times(g, 2 * FromBytes(c), x)
  {
    hide Power, IsGroup, HasOrder, Times, BaseScalar, Pow2;
    PowerPositive(4, m);
    var base0 := Mul(g, bits, BaseScalar(l, m), x);
    pts := BuildPoints(g, base0);
    forall c: seq<Byte> | |c| == 32
      ensures Times(g, Power(4, m), Sum(g, Picked(pts, c))) == Times(g, 2 * FromBytes(c), x)
    {
      EdwardsSum(g, l, m, x, base0, pts, c);
    }
  }

  lemma TimesScalars<G(!new)>(g: Group<G>, l: Prime, q: nat, w: nat, k: nat, x: G)
    requires IsGroup(g) && HasOrder(g, l) && Cong(l, q * k, 2)
    ensures Times(g, q, Times(g, w, Times(g, k, x))) == Times(g, 2 * w, x)
  {
    hide IsGroup, HasOrder, Times;
    TimesTimes(g, w, k, x);
    TimesTimes(g, q, w * k, x);
    ScalarCancels(l, q, w, k);
    TimesMod(g, l, q * (w * k), x);
    TimesMod(g, l, 2 * w, x);
  }

  lemma {:induction false} PowerPositive(x: nat, n: nat)
    requires x > 0
    ensures Power(x, n) > 0
  {
    if n > 0 {
      PowerPositive(x, n - 1);
    }
  }

  lemma ScalarCancels(l: Prime, q: int, w: nat, k: nat)
    requires Cong(l, q * k, 2)
    ensures Cong(l, q * (w * k), 2 * w)
  {
    CongMul(l, q * k, 2, w, w);
    assert q * (w * k) == (q * k) * w;
  }

  lemma PowerUnfold(x: int, n: nat)
    requires n > 0
    ensures Power(x, n) == x * Power(x, n - 1)
  {
  }

  lemma FourInverts(l: Prime, m: nat)
    requires l > 4
    ensures Cong(l, Power(4, m) * BaseScalar(l, m), 2)
  {
    hide Power, IsPrime;
    var q := Power(4, m);
    ModSmall(4, l);
    PowerUnits(l, 4, m);
    var (a, inv) := (q % l, Power(q % l, l - 2) % l);
    CongMod(l, q);
    LittleTheorem(l, a);
    PowerUnfold(a, l - 1);
    InverseScalar(l, q, a, Power(a, l - 2));
  }

  lemma InverseScalar(l: Prime, q: int, a: int, b: int)
    requires Cong(l, a, q) && Cong(l, a * b, 1)
    ensures Cong(l, q * (b % l * 2 % l), 2)
  {
    CongMod(l, b);
    CongMul(l, q, a, b % l, b);
    CongMul(l, q * (b % l), 1, 2, 2);
    CongMod(l, b % l * 2);
    CongMul(l, q, q, b % l * 2 % l, b % l * 2);
    assert q * (b % l * 2) == q * (b % l) * 2;
  }

  lemma {:induction false} PowerUnits(p: Prime, x: int, n: nat)
    requires !Divides(p, x)
    ensures !Divides(p, Power(x, n))
  {
    if n == 0 {
      ModSmall(1, p);
    } else {
      PowerUnits(p, x, n - 1);
      ZeroProduct(p, x, Power(x, n - 1));
    }
  }

  // ----- batched inversion -----

  ghost function Products(z: seq<nat>): nat {
    if z == [] then 1 else Products(z[..|z| - 1]) * z[|z| - 1]
  }

  /** Every entry inverted with a single exponentiation: prefix products, then a walk back. */
  method BatchInvert(p: Prime, z: seq<nat>) returns (zinv: seq<nat>)
    requires p > 2
    ensures |zinv| == |z|
    // If no entry is zero every one is inverted; one zero entry makes every result zero.
    ensures forall i :: 0 <= i < |z| ==> InvertsOne(p, z, i, zinv[i])
  {
    hide IsPrime, Power, Products, AllUnits, Inverts, InvertsOne, Cong, Divides;
    var pre, acc := [], 1;
    NoProducts(p, z);
    var i := 0;
    while i < |z|
      invariant 0 <= i <= |z| && |pre| == i && acc == Products(z[..i]) % p
      invariant forall j :: 0 <= j < i ==> pre[j] == Products(z[..j]) % p
    {
      ProductsNext(p, z, i);
      pre := pre + [acc];
      acc := acc * z[i] % p;
      i := i + 1;
    }
    assert z[..|z|] == z;
    PowerNat(acc, p - 2);
    var inv: nat := Power(acc, p - 2) % p;
    InverseOfAll(p, z, acc, inv);
    zinv := z;
    while i > 0
      invariant 0 <= i <= |z| && |zinv| == |z| && Inverts(p, z, i, inv)
      invariant forall j :: i <= j < |z| ==> InvertsOne(p, z, j, zinv[j])
    {
      i := i - 1;
      InvertsStep(p, z, i, inv, pre[i]);
      zinv := zinv[i := inv * pre[i] % p];
      inv := inv * z[i] % p;
    }
  }

  lemma NoProducts(p: Prime, z: seq<nat>)
    ensures 1 == Products(z[..0]) % p
  {
    ModSmall(1, p);
  }

  ghost predicate AllUnits(p: Prime, z: seq<nat>) {
    forall i :: 0 <= i < |z| ==> !Divides(p, z[i])
  }

  /** `inv` inverts the product of the first `i`, or is zero if some entry is. */
  ghost predicate Inverts(p: Prime, z: seq<nat>, i: nat, inv: nat)
    requires i <= |z|
  {
    inv < p && if AllUnits(p, z) then Cong(p, Products(z[..i]) * inv, 1) else inv == 0
  }

  ghost predicate InvertsOne(p: Prime, z: seq<nat>, i: nat, x: nat)
    requires i < |z|
  {
    if AllUnits(p, z) then Cong(p, z[i] * x, 1) else x == 0
  }

  /** So the nonzero entries are all inverted exactly when no entry is zero, or every one is. */
  lemma BatchInvertsIff(p: Prime, z: seq<nat>, zinv: seq<nat>)
    requires |zinv| == |z| && forall i :: 0 <= i < |z| ==> InvertsOne(p, z, i, zinv[i])
    ensures (forall i :: 0 <= i < |z| && !Divides(p, z[i]) ==> Cong(p, z[i] * zinv[i], 1))
       <==> AllUnits(p, z) || forall i :: 0 <= i < |z| ==> Divides(p, z[i])
  {
    ModSmall(1, p);
    if !AllUnits(p, z) {
      forall i | 0 <= i < |z|
        ensures !Cong(p, z[i] * zinv[i], 1)
      {
        assert InvertsOne(p, z, i, zinv[i]) && zinv[i] == 0;
      }
    }
  }

  /** Batched with a zero, 1 is not inverted: its result is 0. */
  lemma ZeroSpoilsBatch(p: Prime)
    ensures !AllUnits(p, [0, 1]) && forall x: nat :: InvertsOne(p, [0, 1], 1, x) ==> !Cong(p, 1 * x, 1)
  {
    assert Divides(p, [0, 1][0]);
    ModSmall(1, p);
  }

  lemma ProductsNext(p: Prime, z: seq<nat>, i: nat)
    requires i < |z|
    ensures Products(z[..i]) % p * z[i] % p == Products(z[..i + 1]) % p
  {
    assert z[..i + 1][..i] == z[..i];
    CongMod(p, Products(z[..i]));
    CongMul(p, Products(z[..i]) % p, Products(z[..i]), z[i], z[i]);
  }

  lemma {:induction false} ProductsUnit(p: Prime, z: seq<nat>)
    ensures Divides(p, Products(z)) <==> !AllUnits(p, z)
  {
    hide IsPrime, AllUnits;
    if z == [] {
      NoUnits(p);
      ModSmall(1, p);
    } else {
      var (most, x) := (z[..|z| - 1], z[|z| - 1]);
      ProductsUnit(p, most);
      ZeroProduct(p, Products(most), x);
      UnitsSnoc(p, z);
    }
  }

  lemma NoUnits(p: Prime)
    ensures AllUnits(p, [])
  {
  }

  lemma UnitsSnoc(p: Prime, z: seq<nat>)
    requires z != []
    ensures AllUnits(p, z) <==> AllUnits(p, z[..|z| - 1]) && !Divides(p, z[|z| - 1])
  {
    hide Divides, IsPrime;
    var most := z[..|z| - 1];
    forall i | 0 <= i < |most|
      ensures most[i] == z[i]
    {
    }
    if AllUnits(p, z) {
      forall i | 0 <= i < |most|
        ensures !Divides(p, most[i])
      {
        assert most[i] == z[i];
      }
    }
  }

  lemma InverseOfAll(p: Prime, z: seq<nat>, acc: nat, inv: nat)
    requires p > 2 && acc == Products(z) % p && inv == Power(acc, p - 2) % p
    ensures Inverts(p, z, |z|, inv)
  {
    assert z[..|z|] == z;
    CongMod(p, Power(acc, p - 2));
    ProductsUnit(p, z);
    CongMod(p, Products(z));
    if AllUnits(p, z) {
      LittleTheorem(p, acc);
      assert Power(acc, p - 1) == acc * Power(acc, p - 2);
      CongMul(p, Products(z), acc, inv, Power(acc, p - 2));
    } else {
      assert acc == 0;
      assert Power(acc, p - 2) == 0;
      ModSmall(inv, p);
    }
  }

  lemma ProductsPrefix(z: seq<nat>, i: nat)
    requires i < |z|
    ensures Products(z[..i + 1]) == Products(z[..i]) * z[i]
  {
    assert z[..i + 1][..i] == z[..i];
  }

  lemma InvertsStep(p: Prime, z: seq<nat>, i: nat, inv: nat, pre: nat)
    requires i < |z| && Inverts(p, z, i + 1, inv) && pre == Products(z[..i]) % p
    ensures InvertsOne(p, z, i, inv * pre % p) && Inverts(p, z, i, inv * z[i] % p)
  {
    hide IsPrime, AllUnits;
    var (a, x) := (Products(z[..i]), z[i]);
    ProductsPrefix(z, i);
    hide Products;
    if AllUnits(p, z) {
      assert Cong(p, a * x * inv, 1);
      CongMod(p, a);
      CongMul(p, inv, inv, pre, a);
      CongMod(p, inv * pre);
      CongMul(p, x, x, inv * pre % p, inv * a);
      assert x * (inv * a) == a * x * inv;
      CongMod(p, inv * x);
      CongMul(p, a, a, inv * x % p, inv * x);
      assert a * (inv * x) == a * x * inv;
    } else {
      ModSmall(0, p);
    }
  }

  lemma {:induction false} PowerNat(x: nat, n: nat)
    ensures Power(x, n) >= 0
  {
    if n > 0 {
      PowerNat(x, n - 1);
    }
  }
}
