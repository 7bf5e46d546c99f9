/** Arithmetic modulo a prime, over the integers: an element is any integer, and equal elements are congruent. */
module Fields {

  predicate Divides(d: nat, x: int)
    requires d > 0
  {
    x % d == 0
  }

  predicate IsPrime(p: nat) {
    p >= 2 && forall d: nat :: 2 <= d < p ==> !Divides(d, p)
  }

  type Prime = p: nat | p >= 2 && IsPrime(p) witness 2

  predicate Cong(p: nat, x: int, y: int)
    requires p > 0
  {
    x % p == y % p
  }

  // ----- congruence -----

  lemma Quotient(x: int, d: nat) returns (k: int)
    requires d > 0
    ensures x == k * d + x % d
    ensures Divides(d, x) ==> x == k * d
  {
    k := x / d;
  }

  lemma AtLeast(k: int, d: nat)
    requires k >= 1
    ensures k * d >= d
  {
    assert k * d == (k - 1) * d + d;
  }

  lemma TimesMono(x: int, y: int, w: nat)
    requires x <= y
    ensures x * w <= y * w
  {
  }

  lemma QuotientBelow(x: nat, w: nat, m: nat)
    requires w > 0 && x < m * w
    ensures x / w < m
  {
    var q := x / w;
    if q >= m {
      TimesMono(m, q, w);
    }
  }

  lemma ModUnique(x: int, d: nat, q: int, r: int)
    requires d > 0 && x == q * d + r && 0 <= r < d
    ensures x % d == r && x / d == q
  {
    var k := x / d - q;
    assert x / d * d + x % d == x;
    assert k * d == r - x % d;
    if k >= 1 {
      AtLeast(k, d);
    } else if k <= -1 {
      AtLeast(-k, d);
    }
  }

  lemma MultipleDivides(k: int, d: nat)
    requires d > 0
    ensures Divides(d, k * d)
  {
    ModUnique(k * d, d, k, 0);
  }

  lemma ModSmall(x: int, p: nat)
    requires 0 <= x < p
    ensures x % p == x
  {
  }

  lemma CongIff(p: nat, x: int, y: int)
    requires p > 0
    ensures Cong(p, x, y) <==> Divides(p, x - y)
  {
    var (a, b) := (x / p, y / p);
    if Cong(p, x, y) {
      assert x - y == (a - b) * p;
      MultipleDivides(a - b, p);
    }
    if Divides(p, x - y) {
      var k := Quotient(x - y, p);
      assert x == (k + b) * p + y % p;
      ModUnique(x, p, k + b, y % p);
    }
  }

  lemma NegDivides(p: nat, x: int)
    requires p > 0
    ensures Divides(p, -x) <==> Divides(p, x)
  {
    var (j, k) := (x / p, -x / p);
    if Divides(p, x) {
      assert -x == -j * p;
      MultipleDivides(-j, p);
    }
    if Divides(p, -x) {
      assert x == -k * p;
      MultipleDivides(-k, p);
    }
  }

  lemma CongSelf(p: nat, x: int)
    requires p > 0
    ensures Cong(p, x, x)
  {
  }

  lemma CongMod(p: nat, x: int)
    requires p > 0
    ensures Cong(p, x % p, x)
  {
  }

  lemma CongSmall(p: nat, x: nat, y: nat)
    requires p > 0 && x < p && y < p && Cong(p, x, y)
    ensures x == y
  {
    ModSmall(x, p);
    ModSmall(y, p);
  }

  lemma CongAdd(p: nat, x: int, x': int, y: int, y': int)
    requires p > 0 && Cong(p, x, x') && Cong(p, y, y')
    ensures Cong(p, x + y, x' + y') && Cong(p, x - y, x' - y')
  {
    CongIff(p, x, x');
    CongIff(p, y, y');
    var j := Quotient(x - x', p);
    var k := Quotient(y - y', p);
    assert (x + y) - (x' + y') == (j + k) * p;
    assert (x - y) - (x' - y') == (j - k) * p;
    MultipleDivides(j + k, p);
    MultipleDivides(j - k, p);
    CongIff(p, x + y, x' + y');
    CongIff(p, x - y, x' - y');
  }

  lemma CongMul(p: nat, x: int, x': int, y: int, y': int)
    requires p > 0 && Cong(p, x, x') && Cong(p, y, y')
    ensures Cong(p, x * y, x' * y')
  {
    CongIff(p, x, x');
    CongIff(p, y, y');
    var j := Quotient(x - x', p);
    var k := Quotient(y - y', p);
    calc {
      x * y - x' * y';
    ==
      (x - x') * y + x' * (y - y');
    ==
      (j * p) * y + x' * (k * p);
    ==
      (j * y + x' * k) * p;
    }
    MultipleDivides(j * y + x' * k, p);
    CongIff(p, x * y, x' * y');
  }

  // ----- Euclid's lemma -----

  /** Bezout's identity for `a` and `b`, by the Euclidean algorithm. */
  lemma {:induction false} Bezout(a: nat, b: nat) returns (g: nat, x: int, y: int)
    requires a > 0
    ensures g > 0 && g == x * a + y * b && Divides(g, a) && Divides(g, b)
    decreases b
  {
    if b == 0 {
      g, x, y := a, 1, 0;
    } else {
      var q, r := a / b, a % b;
      var x1, y1;
      g, x1, y1 := Bezout(b, r);
      x, y := y1, x1 - y1 * q;
      assert a == q * b + r;
      assert x * a + y * b == y1 * (q * b + r) + (x1 - y1 * q) * b == x1 * b + y1 * r;
      var j := Quotient(b, g);
      var k := Quotient(r, g);
      assert a == (q * j + k) * g;
      MultipleDivides(q * j + k, g);
    }
  }

  lemma DivisorsOfPrime(p: Prime, g: nat)
    requires g > 0 && Divides(g, p)
    ensures g == 1 || g == p
  {
    var k := Quotient(p, g);
    assert IsPrime(p);
    if g > p && k >= 1 {
      AtLeast(k, g);
    }
  }

  /** Only a multiple of a prime has no inverse. */
  lemma Invertible(p: Prime, a: int) returns (y: int)
    requires !Divides(p, a)
    ensures Cong(p, y * a, 1)
  {
    var r := a % p;
    var g, x;
    g, x, y := Bezout(p, r);
    DivisorsOfPrime(p, g);
    if g == p {
      DividesSmall(p, r);
    }
    MultipleDivides(-x, p);
    assert y * r - 1 == -x * p;
    CongIff(p, y * r, 1);
    CongMod(p, a);
    CongMul(p, y, y, a, r);
  }

  /** A prime that divides a product divides a factor. */
  lemma Euclid(p: Prime, a: int, b: int)
    requires Divides(p, a * b)
    ensures Divides(p, a) || Divides(p, b)
  {
    if !Divides(p, a) {
      var y := Invertible(p, a);
      CongMul(p, y * a, 1, b, b);
      var k := Quotient(a * b, p);
      assert y * a * b == y * (k * p) == (y * k) * p;
      MultipleDivides(y * k, p);
    }
  }

  lemma ZeroProduct(p: Prime, a: int, b: int)
    ensures Divides(p, a * b) <==> Divides(p, a) || Divides(p, b)
  {
    if Divides(p, a * b) {
      Euclid(p, a, b);
    } else {
      CongMul(p, a, if Divides(p, a) then 0 else a, b, if Divides(p, b) then 0 else b);
    }
  }

  lemma DividesSmall(d: nat, x: nat)
    requires d > 0 && x < d && Divides(d, x)
    ensures x == 0
  {
  }

  lemma CancelFactor(p: Prime, a: int, x: int, y: int)
    requires !Divides(p, a) && Cong(p, a * x, a * y)
    ensures Cong(p, x, y)
  {
    CongIff(p, a * x, a * y);
    assert a * x - a * y == a * (x - y);
    Euclid(p, a, x - y);
    CongIff(p, x, y);
  }

  /** The multiplicative inverse, and `0` for `0`. */
  ghost function InverseOrZero(p: Prime, a: int): (r: nat)
    ensures r < p
    ensures Divides(p, a) ==> r == 0
    ensures !Divides(p, a) ==> Cong(p, a * r, 1)
  {
    if Divides(p, a) then 0
    else
      HasInverse(p, a);
      var r: nat :| r < p && Cong(p, a * r, 1);
      r
  }

  lemma HasInverse(p: Prime, a: int)
    requires !Divides(p, a)
    ensures exists r: nat :: r < p && Cong(p, a * r, 1)
  {
    var y := Invertible(p, a);
    var r: nat := y % p;
    CongMod(p, y);
    CongMul(p, a, a, r, y);
    assert a * y == y * a;
    assert Cong(p, a * r, 1);
  }

  lemma InverseUnique(p: Prime, a: int, r: int)
    requires !Divides(p, a) && Cong(p, a * r, 1)
    ensures r % p == InverseOrZero(p, a)
  {
    var inv := InverseOrZero(p, a);
    CancelFactor(p, a, r, inv);
    ModSmall(inv, p);
  }

  // ----- powers -----

  function Power(x: int, n: nat): int {
    if n == 0 then 1 else x * Power(x, n - 1)
  }

  lemma {:induction false} PowerAdd(x: int, m: nat, n: nat)
    ensures Power(x, m + n) == Power(x, m) * Power(x, n)
  {
    if m > 0 {
      PowerAdd(x, m - 1, n);
      assert x * (Power(x, m - 1) * Power(x, n)) == (x * Power(x, m - 1)) * Power(x, n);
    }
  }

  lemma {:induction false} PowerSquare(x: int, n: nat)
    ensures Power(x * x, n) == Power(x, 2 * n)
  {
    if n > 0 {
      PowerSquare(x, n - 1);
      assert Power(x, 2 * n) == x * (x * Power(x, 2 * n - 2)) == (x * x) * Power(x, 2 * n - 2);
    }
  }

  lemma {:induction false} PowerCong(p: Prime, x: int, y: int, n: nat)
    requires Cong(p, x, y)
    ensures Cong(p, Power(x, n), Power(y, n))
  {
    if n > 0 {
      PowerCong(p, x, y, n - 1);
      CongMul(p, x, y, Power(x, n - 1), Power(y, n - 1));
    }
  }
}
