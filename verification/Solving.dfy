/** The solver: running the hints in order gives the one assignment they describe. */
module Solving {
  import opened Words
  import opened Fields
  import opened Linear
  import opened Circuits

  function With(s: Assignment, v: nat, x: int): Assignment {
    (u: nat) => if u == v then x else s(u)
  }

  /** Run one hint; a division by zero fails. */
  ghost function Run(p: Prime, g: Gen, s: Assignment): Option<Assignment> {
    match g
    case LinearOp(out, x) => Some(With(s, out, Eval(x, s)))
    case Product(out, l, r) => Some(With(s, out, Eval(l, s) * Eval(r, s)))
    case Xor(out, a, b) => Some(With(s, out, Eval(a, s) + Eval(b, s) - 2 * Eval(a, s) * Eval(b, s)))
    case Or(out, a, b) => Some(With(s, out, Eval(a, s) + Eval(b, s) - Eval(a, s) * Eval(b, s)))
    case Bit(out, x, i) => Some(With(s, out, BitOf(Value(p, x, s), i)))
    case IsZeroInverse(out, x) => Some(With(s, out, InverseOrZero(p, Eval(x, s))))
    case DivRem(q, r, num, den) =>
      var (x, y) := (Value(p, num, s), Value(p, den, s));
      if y == 0 then None else Some(With(With(s, q, x / y), r, x % y))
  }

  /** Run the hints from slot `from` on. */
  ghost function Solve(p: Prime, c: Circuit, from: nat, s: Assignment): Option<Assignment>
    requires Indexed(c)
    decreases |c.gens| - from
  {
    if from >= |c.gens| then Some(s)
    else
      match Run(p, HintAt(c, from), s)
      case None => None
      case Some(t) => Solve(p, c, from + 1, t)
  }

  ghost predicate SameBelow(s: Assignment, t: Assignment, n: nat) {
    forall v: nat :: v < n ==> s(v) == t(v)
  }

  lemma SameEval(x: Lc, n: nat, s: Assignment, t: Assignment)
    requires Below(x, n) && SameBelow(s, t, n)
    ensures Eval(x, s) == Eval(x, t)
  {
    EvalBelow(x, n, s, t);
  }

  /** A hint only looks at its own variables and earlier ones. */
  lemma HintedSame(p: Prime, g: Gen, lo: nat, s: Assignment, t: Assignment)
    requires Spans(g, lo, LastOut(g) + 1) && SameBelow(s, t, lo) && s(g.out) == t(g.out)
      && s(LastOut(g)) == t(LastOut(g))
    ensures AsHinted(p, g, s) <==> AsHinted(p, g, t)
  {
    hide Eval;
    match g {
      case LinearOp(_, x) => SameEval(x, lo, s, t);
      case Product(_, a, b) => SameEval(a, lo, s, t); SameEval(b, lo, s, t);
      case Xor(_, a, b) => SameEval(a, lo, s, t); SameEval(b, lo, s, t);
      case Or(_, a, b) => SameEval(a, lo, s, t); SameEval(b, lo, s, t);
      case Bit(_, x, _) => SameEval(x, lo, s, t);
      case IsZeroInverse(_, x) => SameEval(x, lo, s, t);
      case DivRem(_, _, x, y) => SameEval(x, lo, s, t); SameEval(y, lo, s, t);
    }
  }

  lemma RunHints(p: Prime, g: Gen, s: Assignment)
    requires Spans(g, g.out, LastOut(g) + 1) && Run(p, g, s).Some?
    ensures var t := Run(p, g, s).value; SameBelow(s, t, g.out) && AsHinted(p, g, t)
  {
    var t := Run(p, g, s).value;
    assert SameBelow(s, t, g.out);
    RunValues(p, g, s, t);
  }

  lemma RunValues(p: Prime, g: Gen, s: Assignment, t: Assignment)
    requires Spans(g, g.out, LastOut(g) + 1) && Run(p, g, s) == Some(t) && SameBelow(s, t, g.out)
    ensures AsHinted(p, g, t)
  {
    hide Eval, IsPrime, BitOf;
    var n := g.out;
    match g {
      case LinearOp(_, x) => SameEval(x, n, s, t);
      case Product(_, a, b) => SameEval(a, n, s, t); SameEval(b, n, s, t);
      case Xor(_, a, b) => SameEval(a, n, s, t); SameEval(b, n, s, t);
      case Or(_, a, b) => SameEval(a, n, s, t); SameEval(b, n, s, t);
      case Bit(_, x, i) => SameEval(x, n, s, t); BitSmall(p, Value(p, x, s), i);
      case IsZeroInverse(_, x) => SameEval(x, n, s, t); ModSmall(InverseOrZero(p, Eval(x, s)), p);
      case DivRem(_, _, x, y) => SameEval(x, n, s, t); SameEval(y, n, s, t);
        QuotientSmall(p, Value(p, x, s), Value(p, y, s));
    }
  }

  lemma BitSmall(p: Prime, x: nat, i: nat)
    ensures BitOf(x, i) % p == BitOf(x, i)
  {
    ModSmall(BitOf(x, i), p);
  }

  lemma QuotientSmall(p: Prime, x: nat, y: nat)
    requires x < p && 0 < y < p
    ensures (x / y) % p == x / y && (x % y) % p == x % y
  {
    var q := x / y;
    assert q * y <= x;
    assert q <= q * y;
    ModSmall(q, p);
    ModSmall(x % y, p);
  }

  /** A solved assignment has every hinted value, and leaves the variables before the first hint alone. */
  lemma {:induction false} SolveHints(p: Prime, c: Circuit, from: nat, lo: nat, s: Assignment)
    requires Shaped(c) && Solve(p, c, from, s).Some?
    requires forall i :: from <= i < |c.gens| ==> lo <= HintAt(c, i).out
    ensures var t := Solve(p, c, from, s).value; Hinted(p, c, from, t) && SameBelow(s, t, lo)
    decreases |c.gens| - from
  {
    if from < |c.gens| {
      var g := HintAt(c, from);
      assert Spans(g, g.out, c.next);
      RunHints(p, g, s);
      var s1 := Run(p, g, s).value;
      var next := LastOut(g) + 1;
      forall i | from + 1 <= i < |c.gens|
        ensures next <= HintAt(c, i).out
      {
      }
      SolveHints(p, c, from + 1, next, s1);
      var t := Solve(p, c, from, s).value;
      assert s1(g.out) == t(g.out) && s1(LastOut(g)) == t(LastOut(g));
      HintedSame(p, g, g.out, s1, t);
    }
  }

  // ----- one solution -----

  /** No hint from slot `from` on defines `v`. */
  ghost predicate Free(c: Circuit, from: nat, v: nat)
    requires Indexed(c)
  {
    forall i :: from <= i < |c.gens| ==> v != HintAt(c, i).out && v != LastOut(HintAt(c, i))
  }

  ghost predicate CongBelow(p: Prime, s: Assignment, t: Assignment, n: nat) {
    forall v: nat :: v < n ==> Cong(p, s(v), t(v))
  }

  lemma {:induction false} SumCong(p: Prime, terms: seq<Term>, n: nat, s: Assignment, t: Assignment)
    requires CongBelow(p, s, t, n) && forall i :: 0 <= i < |terms| ==> terms[i].v < n
    ensures Cong(p, SumTerms(terms, s), SumTerms(terms, t))
  {
    if terms != [] {
      var (k, v) := (terms[0].coeff, terms[0].v);
      SumCong(p, terms[1..], n, s, t);
      CongMul(p, k, k, s(v), t(v));
      CongAdd(p, k * s(v), k * t(v), SumTerms(terms[1..], s), SumTerms(terms[1..], t));
    }
  }

  lemma CongEval(p: Prime, x: Lc, n: nat, s: Assignment, t: Assignment)
    requires Below(x, n) && CongBelow(p, s, t, n)
    ensures Cong(p, Eval(x, s), Eval(x, t)) && Value(p, x, s) == Value(p, x, t)
  {
    SumCong(p, x.terms, n, s, t);
    CongAdd(p, x.constant, x.constant, SumTerms(x.terms, s), SumTerms(x.terms, t));
  }

  lemma InverseCong(p: Prime, a: int, b: int)
    requires Cong(p, a, b)
    ensures InverseOrZero(p, a) == InverseOrZero(p, b)
  {
    if !Divides(p, a) {
      var r := InverseOrZero(p, a);
      CongMul(p, a, b, r, r);
      InverseUnique(p, b, r);
      ModSmall(r, p);
    }
  }

  lemma HintForces(p: Prime, g: Gen, s: Assignment, t: Assignment)
    requires Spans(g, g.out, LastOut(g) + 1) && AsHinted(p, g, s) && AsHinted(p, g, t) && CongBelow(p, s, t, g.out)
    ensures Cong(p, s(g.out), t(g.out)) && Cong(p, s(LastOut(g)), t(LastOut(g)))
  {
    hide Eval, IsPrime, BitOf;
    var n := g.out;
    match g {
      case LinearOp(_, x) => CongEval(p, x, n, s, t);
      case Product(_, a, b) => ProductForces(p, a, b, n, s, t);
      case Xor(_, a, b) => ProductForces(p, a, b, n, s, t);
      case Or(_, a, b) => ProductForces(p, a, b, n, s, t);
      case Bit(_, x, i) => CongEval(p, x, n, s, t);
      case IsZeroInverse(_, x) => CongEval(p, x, n, s, t); InverseCong(p, Eval(x, s), Eval(x, t));
      case DivRem(_, _, x, y) => CongEval(p, x, n, s, t); CongEval(p, y, n, s, t);
    }
  }

  lemma ProductForces(p: Prime, a: Lc, b: Lc, n: nat, s: Assignment, t: Assignment)
    requires Below(a, n) && Below(b, n) && CongBelow(p, s, t, n)
    ensures Cong(p, Eval(a, s) * Eval(b, s), Eval(a, t) * Eval(b, t))
    ensures Cong(p, Eval(a, s) + Eval(b, s) - Eval(a, s) * Eval(b, s),
      Eval(a, t) + Eval(b, t) - Eval(a, t) * Eval(b, t))
    ensures Cong(p, Eval(a, s) + Eval(b, s) - 2 * Eval(a, s) * Eval(b, s),
      Eval(a, t) + Eval(b, t) - 2 * Eval(a, t) * Eval(b, t))
  {
    hide IsPrime, Eval;
    CongEval(p, a, n, s, t);
    CongEval(p, b, n, s, t);
    var (x, y, u, v) := (Eval(a, s), Eval(b, s), Eval(a, t), Eval(b, t));
    CongMul(p, x, u, y, v);
    CongMul(p, 2, 2, x * y, u * v);
    CongAdd(p, x, u, y, v);
    CongAdd(p, x + y, u + v, x * y, u * v);
    CongAdd(p, x + y, u + v, 2 * (x * y), 2 * (u * v));
    assert 2 * x * y == 2 * (x * y) && 2 * u * v == 2 * (u * v);
  }

  /** Two assignments with the hinted values agree everywhere if they agree on what is not hinted. */
  lemma {:induction false} HintsDetermine(p: Prime, c: Circuit, from: nat, s: Assignment, t: Assignment, v: nat)
    requires Shaped(c) && Hinted(p, c, from, s) && Hinted(p, c, from, t)
    requires forall u: nat :: Free(c, from, u) ==> Cong(p, s(u), t(u))
    ensures Cong(p, s(v), t(v))
    decreases v
  {
    if !Free(c, from, v) {
      var i :| from <= i < |c.gens| && (v == HintAt(c, i).out || v == LastOut(HintAt(c, i)));
      var g := HintAt(c, i);
      assert Spans(g, g.out, c.next);
      forall u: nat | u < g.out
        ensures Cong(p, s(u), t(u))
      {
        HintsDetermine(p, c, from, s, t, u);
      }
      HintForces(p, g, s, t);
    }
  }

  // ----- extending a solution -----

  lemma {:induction false} SolveTotal(p: Prime, c: Circuit, from: nat, s: Assignment)
    requires Indexed(c) && forall i :: from <= i < |c.gens| ==> !HintAt(c, i).DivRem?
    ensures Solve(p, c, from, s).Some?
    decreases |c.gens| - from
  {
    if from < |c.gens| {
      SolveTotal(p, c, from + 1, Run(p, HintAt(c, from), s).value);
    }
  }

  lemma MeetsBelow(p: Prime, c: Circuit, s: Assignment, t: Assignment)
    requires Indexed(c) && Meets(p, c, s) && SameBelow(s, t, c.next)
    ensures Meets(p, c, t)
  {
    hide Eval;
    forall i | 0 <= i < |c.rows|
      ensures Holds(p, c.rows[i], t)
    {
      assert Holds(p, c.rows[i], s) && RowBelow(c.rows[i], c.next);
      SameEval(c.rows[i].a, c.next, s, t);
      SameEval(c.rows[i].b, c.next, s, t);
      SameEval(c.rows[i].c, c.next, s, t);
    }
    forall v | v in c.merged
      ensures MergedHolds(p, c, v, t)
    {
      assert MergedHolds(p, c, v, s) && RowBelow(c.rows[c.merged[v].1], c.next);
      SameEval(c.rows[c.merged[v].1].a, c.next, s, t);
      SameEval(c.rows[c.merged[v].1].b, c.next, s, t);
    }
  }

  /** `s` extends to a solution of the rows: one agrees with it on the variables of `c`. */
  ghost predicate Completes(p: Prime, c: Circuit, d: Circuit, s: Assignment)
    requires Indexed(d)
  {
    exists t: Assignment :: Meets(p, d, t) && SameBelow(s, t, c.next)
  }

  lemma CompletesBy(p: Prime, c: Circuit, d: Circuit, s: Assignment, t: Assignment)
    requires Indexed(d) && Meets(p, d, t) && SameBelow(s, t, c.next)
    ensures Completes(p, c, d, s)
  {
  }

  lemma CompletesSelf(p: Prime, c: Circuit, s: Assignment)
    requires Indexed(c) && Meets(p, c, s)
    ensures Completes(p, c, c, s)
  {
    CompletesBy(p, c, c, s, s);
  }

  /** Where the hints can be run and a step adds nothing but their values, a solution before it extends to one
      after it. */
  lemma Extensible(p: Prime, c0: Circuit, c1: Circuit, s: Assignment)
    requires Shaped(c0) && Shaped(c1) && Extends(c0, c1) && Solve(p, c1, |c0.gens|, s).Some?
    requires Meets(p, c0, s) && forall t: Assignment :: SameBelow(s, t, c0.next) ==> AddsAt(p, c0, c1, t, true)
    ensures Completes(p, c0, c1, s)
  {
    var t := Solve(p, c1, |c0.gens|, s).value;
    forall i | |c0.gens| <= i < |c1.gens|
      ensures c0.next <= HintAt(c1, i).out
    {
      assert c0.next <= OutAt(c1, i);
    }
    SolveHints(p, c1, |c0.gens|, c0.next, s);
    MeetsBelow(p, c0, s, t);
    assert AddsAt(p, c0, c1, t, true);
  }

  lemma NoDivisionRuns(p: Prime, c: Circuit, d: Circuit, s: Assignment)
    requires Indexed(c) && Indexed(d) && NoDivision(c, d)
    ensures Solve(p, d, |c.gens|, s).Some?
  {
    SolveTotal(p, d, |c.gens|, s);
  }

  /** Hints that do not divide can always be run. */
  lemma NoDivisionCompletes(p: Prime, c: Circuit, d: Circuit, s: Assignment)
    requires Shaped(c) && Shaped(d) && Extends(c, d) && NoDivision(c, d) && Meets(p, c, s)
    requires forall t: Assignment :: SameBelow(s, t, c.next) ==> AddsAt(p, c, d, t, true)
    ensures Completes(p, c, d, s)
  {
    hide Indexed, Ordered, Extends, NoDivision, Meets, Hinted;
    NoDivisionRuns(p, c, d, s);
    Extensible(p, c, d, s);
  }

  /** A step that adds nothing but hinted values, by hints that do not divide. */
  lemma AllComplete(p: Prime, c: Circuit, d: Circuit)
    requires Shaped(c) && Shaped(d) && Extends(c, d) && NoDivision(c, d)
    requires forall s: Assignment :: AddsAt(p, c, d, s, true)
    ensures forall s: Assignment :: Meets(p, c, s) ==> Completes(p, c, d, s)
  {
    hide Indexed, Ordered, Extends, NoDivision, Meets, Hinted, AddsAt;
    forall s: Assignment | Meets(p, c, s)
      ensures Completes(p, c, d, s)
    {
      NoDivisionCompletes(p, c, d, s);
    }
  }

  /** A division by what is not 0, and then hints that do not divide. */
  lemma DivisionCompletes(p: Prime, c: Circuit, c1: Circuit, d: Circuit, g: Gen, s: Assignment)
    requires Shaped(c) && Shaped(c1) && Shaped(d) && Extends(c, c1) && Extends(c1, d) && NoDivision(c1, d)
    requires |c1.gens| == |c.gens| + 1 && HintAt(c1, |c.gens|) == g && Run(p, g, s).Some? && Meets(p, c, s)
    requires forall t: Assignment :: SameBelow(s, t, c.next) ==> AddsAt(p, c, d, t, true)
    ensures Completes(p, c, d, s)
  {
    hide Ordered, Meets, Hinted, AddsAt, Run;
    ExtendsTrans(c, c1, d);
    HintStays(c1, d, |c.gens|);
    NoDivisionRuns(p, c1, d, Run(p, g, s).value);
    Extensible(p, c, d, s);
  }

  /** Two steps. */
  lemma CompletesTrans(p: Prime, c: Circuit, d: Circuit, e: Circuit, s: Assignment, t: Assignment)
    requires Indexed(d) && Indexed(e) && c.next <= d.next && SameBelow(s, t, c.next) && Completes(p, d, e, t)
    ensures Completes(p, c, e, s)
  {
    hide Indexed, Meets;
    var u: Assignment :| Meets(p, e, u) && SameBelow(t, u, d.next);
    CompletesBy(p, c, e, s, u);
  }

  lemma SameValue(p: Prime, x: Lc, n: nat, s: Assignment, t: Assignment)
    requires Below(x, n) && SameBelow(s, t, n)
    ensures Eval(x, s) == Eval(x, t) && Value(p, x, s) == Value(p, x, t)
  {
    SameEval(x, n, s, t);
  }
}
