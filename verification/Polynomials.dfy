/** Polynomials over a prime field: a nonzero one has no more roots than its degree. */
module Polynomials {
  import opened Fields

  /** `c[0] + c[1]·x + c[2]·x² + …` */
  function Poly(c: seq<int>, x: int): int {
    if c == [] then 0 else c[0] + x * Poly(c[1..], x)
  }

  /** The quotient of `c − c(r)` by `x − r`: Horner's intermediate values. */
  function Quotients(c: seq<int>, r: int): (q: seq<int>)
    requires c != []
    ensures |q| == |c| - 1
  {
    seq(|c| - 1, i requires 0 <= i < |c| - 1 => Poly(c[i + 1..], r))
  }

  lemma {:induction false} Factor(c: seq<int>, r: int, x: int)
    requires c != []
    ensures Poly(c, x) - Poly(c, r) == (x - r) * Poly(Quotients(c, r), x)
  {
    var d := c[1..];
    if d == [] {
      assert Quotients(c, r) == [];
    } else {
      Factor(d, r, x);
      var (q, q') := (Quotients(c, r), Quotients(d, r));
      assert q == [Poly(d, r)] + q' by {
        forall i | 0 <= i < |q|
          ensures q[i] == ([Poly(d, r)] + q')[i]
        {
          if i > 0 {
            assert c[i + 1..] == d[i..];
          }
        }
      }
      assert q[1..] == q';
      FactorStep(c[0], x, r, Poly(d, r), Poly(d, x), Poly(q', x));
    }
  }

  lemma FactorStep(c: int, x: int, r: int, a: int, b: int, z: int)
    requires b - a == (x - r) * z
    ensures (c + x * b) - (c + r * a) == (x - r) * (a + x * z)
  {
    calc {
      (x - r) * (a + x * z);
    ==
      (x - r) * a + x * ((x - r) * z);
    ==
      x * b - r * a;
    }
  }

  ghost predicate Distinct(p: Prime, xs: seq<int>) {
    forall i, j :: 0 <= i < j < |xs| ==> !Cong(p, xs[i], xs[j])
  }

  ghost predicate Vanishes(p: Prime, c: seq<int>) {
    forall i :: 0 <= i < |c| ==> Divides(p, c[i])
  }

  /** As many distinct roots as coefficients leave only the zero polynomial. */
  lemma {:induction false} TooManyRoots(p: Prime, c: seq<int>, roots: seq<int>)
    requires Distinct(p, roots) && |roots| >= |c|
    requires forall i :: 0 <= i < |roots| ==> Divides(p, Poly(c, roots[i]))
    ensures Vanishes(p, c)
    decreases |c|
  {
    if c != [] {
      var (r, rest) := (roots[0], roots[1..]);
      var q := Quotients(c, r);
      forall i | 0 <= i < |rest|
        ensures Divides(p, Poly(q, rest[i]))
      {
        var x := rest[i];
        assert x == roots[i + 1] && !Cong(p, roots[0], roots[i + 1]);
        Factor(c, r, x);
        CongAdd(p, Poly(c, x), 0, Poly(c, r), 0);
        Euclid(p, x - r, Poly(q, x));
        CongIff(p, x, r);
      }
      TooManyRoots(p, q, rest);
      forall i | 0 <= i < |c|
        ensures Divides(p, c[i])
      {
        CoefficientVanishes(p, c, r, i);
      }
    }
  }

  lemma CoefficientVanishes(p: Prime, c: seq<int>, r: int, i: nat)
    requires i < |c| && Vanishes(p, Quotients(c, r)) && Divides(p, Poly(c, r))
    ensures Divides(p, c[i])
  {
    var q := Quotients(c, r);
    assert i > 0 ==> q[i - 1] == Poly(c[i..], r);
    assert c[0..] == c;
    assert Divides(p, Poly(c[i..], r));
    assert Poly(c[i..], r) == c[i] + r * Poly(c[i..][1..], r) && c[i..][1..] == c[i + 1..];
    assert i + 1 < |c| ==> q[i] == Poly(c[i + 1..], r);
    var y := Poly(c[i + 1..], r);
    assert Divides(p, y);
    CongMul(p, r, r, y, 0);
    CongAdd(p, c[i] + r * y, 0, r * y, 0);
  }

  /** The zero polynomial vanishes everywhere. */
  lemma {:induction false} ZeroPoly(p: Prime, c: seq<int>, x: int)
    requires Vanishes(p, c)
    ensures Divides(p, Poly(c, x))
  {
    if c != [] {
      ZeroPoly(p, c[1..], x);
      CongMul(p, x, x, Poly(c[1..], x), 0);
      CongAdd(p, c[0], 0, x * Poly(c[1..], x), 0);
    }
  }
}
