/** Fermat's little theorem: the residues multiplied by a unit are the residues again. */
module Fermat {
  import opened Fields

  ghost function Prod(s: set<nat>): nat
    decreases |s|
  {
    if s == {} then 1 else var x :| x in s; x * Prod(s - {x})
  }

  lemma {:induction false} ProdPick(s: set<nat>, x: nat)
    requires x in s
    ensures Prod(s) == x * Prod(s - {x})
    decreases |s|
  {
    var y :| y in s && Prod(s) == y * Prod(s - {y});
    if y != x {
      ProdPick(s - {y}, x);
      ProdPick(s - {x}, y);
      assert s - {y} - {x} == s - {x} - {y};
      var z := Prod(s - {x} - {y});
      assert y * (x * z) == x * (y * z);
    }
  }

  ghost predicate Residues(p: Prime, s: set<nat>) {
    forall x :: x in s ==> 0 < x < p
  }

  ghost function Shifted(p: Prime, a: nat, s: set<nat>): set<nat> {
    set x | x in s :: a * x % p
  }

  lemma UnitShift(p: Prime, a: nat, x: nat)
    requires !Divides(p, a) && 0 < x < p
    ensures 0 < a * x % p < p
  {
    ModSmall(x, p);
    ZeroProduct(p, a, x);
  }

  lemma ShiftInjective(p: Prime, a: nat, x: nat, y: nat)
    requires !Divides(p, a) && x < p && y < p && a * x % p == a * y % p
    ensures x == y
  {
    CancelFactor(p, a, x, y);
    CongSmall(p, x, y);
  }

  lemma {:induction false} ShiftedProd(p: Prime, a: nat, s: set<nat>)
    requires !Divides(p, a) && Residues(p, s)
    ensures Residues(p, Shifted(p, a, s)) && |Shifted(p, a, s)| == |s|
    ensures Cong(p, Prod(Shifted(p, a, s)), Power(a, |s|) * Prod(s))
    decreases |s|
  {
    forall y | y in Shifted(p, a, s)
      ensures 0 < y < p
    {
      var x :| x in s && y == a * x % p;
      UnitShift(p, a, x);
    }
    if s != {} {
      var x :| x in s;
      ShiftedProd(p, a, s - {x});
      ShiftedPick(p, a, s, x);
    }
  }

  lemma ShiftedRest(p: Prime, a: nat, s: set<nat>, x: nat)
    requires !Divides(p, a) && Residues(p, s) && x in s
    ensures Shifted(p, a, s) - {a * x % p} == Shifted(p, a, s - {x})
  {
    forall u | u in s - {x}
      ensures a * u % p != a * x % p
    {
      if a * u % p == a * x % p {
        ShiftInjective(p, a, u, x);
      }
    }
    var (all, rest, y) := (Shifted(p, a, s), Shifted(p, a, s - {x}), a * x % p);
    forall v | v in all - {y}
      ensures v in rest
    {
      var u :| u in s && v == a * u % p;
      assert u in s - {x};
    }
    assert y !in rest && rest <= all;
  }

  lemma ShiftedPick(p: Prime, a: nat, s: set<nat>, x: nat)
    requires !Divides(p, a) && Residues(p, s) && x in s
    requires var rest := s - {x};
      && |Shifted(p, a, rest)| == |rest| && Cong(p, Prod(Shifted(p, a, rest)), Power(a, |rest|) * Prod(rest))
    ensures |Shifted(p, a, s)| == |s| && Cong(p, Prod(Shifted(p, a, s)), Power(a, |s|) * Prod(s))
  {
    hide IsPrime, Cong, Prod;
    var (rest, y) := (s - {x}, a * x % p);
    ShiftedRest(p, a, s, x);
    ProdPick(s, x);
    ProdPick(Shifted(p, a, s), y);
    CongMod(p, a * x);
    ShiftStep(p, a, x, y, Prod(Shifted(p, a, rest)), Power(a, |rest|), Prod(rest));
  }

  lemma ShiftStep(p: Prime, a: int, x: int, y: int, b: int, c: int, d: int)
    requires Cong(p, y, a * x) && Cong(p, b, c * d)
    ensures Cong(p, y * b, (a * c) * (x * d))
  {
    CongMul(p, y, a * x, b, c * d);
    assert (a * x) * (c * d) == (a * c) * (x * d);
  }

  ghost function NonzeroBelow(n: nat): set<nat> {
    if n <= 1 then {} else NonzeroBelow(n - 1) + {n - 1}
  }

  lemma {:induction false} NonzeroBelowSize(n: nat)
    requires n > 0
    ensures |NonzeroBelow(n)| == n - 1 && forall x :: x in NonzeroBelow(n) <==> 0 < x < n
  {
    if n > 1 {
      NonzeroBelowSize(n - 1);
    }
  }

  lemma {:induction false} ProdUnit(p: Prime, s: set<nat>)
    requires Residues(p, s)
    ensures !Divides(p, Prod(s))
    decreases |s|
  {
    if s == {} {
      ModSmall(1, p);
    } else {
      var x :| x in s;
      ProdPick(s, x);
      ProdUnit(p, s - {x});
      ModSmall(x, p);
      ZeroProduct(p, x, Prod(s - {x}));
    }
  }

  lemma SubsetOfSameSize(s: set<nat>, t: set<nat>)
    requires s <= t && |s| == |t|
    ensures s == t
  {
    assert |t - s| == |t| - |s|;
  }

  lemma LittleTheorem(p: Prime, a: nat)
    requires !Divides(p, a)
    ensures Cong(p, Power(a, p - 1), 1)
  {
    var s := NonzeroBelow(p);
    NonzeroBelowSize(p);
    ShiftedProd(p, a, s);
    SubsetOfSameSize(Shifted(p, a, s), s);
    ProdUnit(p, s);
    var (x, y) := (Prod(s), Power(a, p - 1));
    assert Cong(p, x * 1, x * y) by { assert y * x == x * y; }
    CancelFactor(p, x, 1, y);
  }
}
