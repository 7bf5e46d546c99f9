/** That the folding of gadgets misses nothing: hints that are affine by a constant, and rows that are decided. */
module Affine {
  import opened Words
  import opened Fields
  import opened Linear
  import opened Reduction
  import opened Gadgets

  /** The form has one value, whatever the assignment. */
  ghost predicate SameEverywhere(p: Prime, x: Form) {
    forall s: Assignment :: Cong(p, Sum(x, s), Sum(x, Zeros()))
  }

  lemma {:induction false} NothingAtZeros(ts: seq<Term>)
    ensures SumTerms(ts, Zeros()) == 0
  {
    if ts != [] {
      NothingAtZeros(ts[1..]);
    }
  }

  /** A reduced form has one value exactly when it has no terms. */
  lemma ConstantIff(p: Prime, x: Form)
    requires Reduced(p, x)
    ensures IsConstant(x) <==> SameEverywhere(p, x)
  {
    hide Cong, IsPrime;
    var k := Form(x.constant, []);
    NothingAtZeros(x.terms);
    if SameEverywhere(p, x) {
      forall s: Assignment
        ensures SameValue(p, x, k, s)
      {
        assert Sum(k, s) == Sum(x, Zeros());
      }
      ReducedUnique(p, x, k);
    } else {
      forall s: Assignment
        ensures IsConstant(x) ==> Cong(p, Sum(x, s), Sum(x, Zeros()))
      {
        CongRefl(p, Sum(x, s));
      }
    }
  }

  lemma CongRefl(p: Prime, x: int)
    ensures Cong(p, x, x)
  {
  }

  /** A hint has an affine value exactly when it is a bit or the bits of a form with one value, or a gate of which an
      input has one. */
  lemma AffineIff(p: Prime, h: Hint)
    requires forall x :: x in Ins(h) ==> Reduced(p, x)
    ensures AffineValue(p, h).Some? <==>
      match h
      case Bit(_, x, _) => SameEverywhere(p, x)
      case Bits(_, x) => SameEverywhere(p, x)
      case Xor(_, a, b) => SameEverywhere(p, a) || SameEverywhere(p, b)
      case Or(_, a, b) => SameEverywhere(p, a) || SameEverywhere(p, b)
      case Product(_, a, b) => SameEverywhere(p, a) || SameEverywhere(p, b)
      case Other(_, _, _) => false
  {
    hide Reduced, SameEverywhere, CanonicalLc;
    forall x | x in Ins(h)
      ensures IsConstant(x) <==> SameEverywhere(p, x)
    {
      ConstantIff(p, x);
    }
    match h
    case Bit(_, x, _) => assert Ins(h)[0] == x;
    case Bits(_, x) => assert Ins(h)[0] == x;
    case Xor(_, a, b) => assert Ins(h)[0] == a && Ins(h)[1] == b;
    case Or(_, a, b) => assert Ins(h)[0] == a && Ins(h)[1] == b;
    case Product(_, a, b) => assert Ins(h)[0] == a && Ins(h)[1] == b;
    case Other(_, _, _) =>
  }

  // ----- rows that are decided -----

  /** `a` where variable `v` is, and 0 elsewhere. */
  function At(v: nat, a: int): Assignment {
    (u: nat) => if u == v then a else 0
  }

  lemma {:induction false} ScaledOnly(ts: seq<Term>, v: nat, a: int)
    ensures SumTerms(ts, At(v, a)) == a * SumTerms(ts, Only(v))
  {
    if ts != [] {
      ScaledOnly(ts[1..], v, a);
      var (c, m) := (ts[0].coeff, SumTerms(ts[1..], Only(v)));
      if ts[0].v == v {
        assert c * a + a * m == a * (c + m);
      }
    }
  }

  /** A reduced form with terms is 0 somewhere. */
  lemma ZeroSomewhere(p: Prime, d: Form)
    requires Reduced(p, d) && d.terms != []
    ensures exists s: Assignment :: Cong(p, Sum(d, s), 0)
  {
    hide Cong, IsPrime;
    var v: nat :| SumTerms(d.terms, Only(v)) != 0 by {
      if forall v: nat :: SumTerms(d.terms, Only(v)) == 0 {
        RisingCanonical(d.terms);
        SameSlopes(d.terms, []);
      }
    }
    var m := SumTerms(d.terms, Only(v));
    SlopeRange(p, d, v);
    var a := Root(p, d.constant, m);
    ScaledOnly(d.terms, v, a);
    assert Cong(p, Sum(d, At(v, a)), 0);
  }

  /** `k + a·m = 0` has a solution. */
  lemma Root(p: Prime, k: int, m: int) returns (a: int)
    requires 0 < m < p
    ensures Cong(p, k + a * m, 0)
  {
    assert !Divides(p, m) by {
      ModSmall(m, p);
    }
    var r := InverseOrZero(p, m);
    a := -k * r;
    hide IsPrime;
    CongMul(p, k, k, m * r, 1);
    CongAdd(p, k, k, k * (m * r), k);
    assert k - k * (m * r) == k + a * m;
  }

  /** A row with a constant factor is found to hold always exactly when it does, and never exactly when it does not
      hold anywhere. */
  lemma ValidityDecides(p: Prime, k: int, x: Form, c: Form)
    ensures LineValidity(p, k, x, c) == Always <==> forall s: Assignment :: Cong(p, k * Sum(x, s), Sum(c, s))
    ensures LineValidity(p, k, x, c) == Never <==> forall s: Assignment :: !Cong(p, k * Sum(x, s), Sum(c, s))
  {
    var sum := Plus(ScaleBy(x, k), ScaleBy(c, -1));
    var d := CanonicalLc(p, sum);
    hide IsPrime, CanonicalLc;
    CanonicalReduced(p, sum);
    if forall s: Assignment :: Cong(p, k * Sum(x, s), Sum(c, s)) {
      AlwaysIsFound(p, k, x, c);
    }
    forall s: Assignment
      ensures LineValidity(p, k, x, c) == Always ==> Cong(p, k * Sum(x, s), Sum(c, s))
      ensures LineValidity(p, k, x, c) == Never ==> !Cong(p, k * Sum(x, s), Sum(c, s))
    {
      LineValidityHolds(p, k, x, c, s);
    }
    if d.terms != [] {
      ZeroSomewhere(p, d);
      var s: Assignment :| Cong(p, Sum(d, s), 0);
      CanonicalSum(p, sum, s);
      LineSum(x, k, c, s);
      CongIff(p, k * Sum(x, s), Sum(c, s));
      CongIff(p, k * Sum(x, s) - Sum(c, s), 0);
      assert Cong(p, k * Sum(x, s), Sum(c, s));
    } else {
      LineValidityHolds(p, k, x, c, Zeros());
    }
  }
}
