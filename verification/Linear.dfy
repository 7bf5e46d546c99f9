/** Linear combinations over circuit variables: integer coefficients, sorted terms, no zero coefficient. */
module Linear {
  import opened Fields

  datatype Term = Term(coeff: int, v: nat)
  datatype Form = Form(constant: int, terms: seq<Term>)

  /** Strictly increasing variables, no zero coefficient. */
  predicate Canonical(terms: seq<Term>) {
    terms == [] || (terms[0].coeff != 0 && Above(terms[1..], terms[0].v) && Canonical(terms[1..]))
  }

  type Lc = f: Form | Canonical(f.terms) witness Form(0, [])

  /** A value for every variable; only its residue matters. */
  type Assignment = nat -> int

  function SumTerms(terms: seq<Term>, s: Assignment): int {
    if terms == [] then 0 else terms[0].coeff * s(terms[0].v) + SumTerms(terms[1..], s)
  }

  /** The integer `lc` stands for under `s`. */
  function Eval(lc: Lc, s: Assignment): int {
    lc.constant + SumTerms(lc.terms, s)
  }

  /** Its value in the field. */
  function Value(p: Prime, lc: Lc, s: Assignment): (r: nat)
    ensures r < p
  {
    Eval(lc, s) % p
  }

  predicate Above(terms: seq<Term>, v: nat) {
    forall i :: 0 <= i < |terms| ==> v < terms[i].v
  }

  ghost predicate Below(lc: Lc, n: nat) {
    forall i :: 0 <= i < |lc.terms| ==> lc.terms[i].v < n
  }

  predicate Mentions(lc: Lc, v: nat) {
    exists i :: 0 <= i < |lc.terms| && lc.terms[i].v == v
  }

  // ----- building -----

  function Const(c: int): (r: Lc)
    ensures forall s: Assignment :: Eval(r, s) == c
    ensures Below(r, 0)
  {
    Form(c, [])
  }

  function Var(v: nat): (r: Lc)
    ensures forall s: Assignment :: Eval(r, s) == s(v)
    ensures forall n :: v < n ==> Below(r, n)
  {
    var terms := [Term(1, v)];
    assert terms[1..] == [] && Canonical(terms);
    assert forall s: Assignment :: SumTerms(terms, s) == s(v) + SumTerms(terms[1..], s);
    Form(0, terms)
  }

  function MergeTerms(a: seq<Term>, b: seq<Term>): seq<Term>
    decreases |a| + |b|
  {
    if a == [] then b
    else if b == [] then a
    else if a[0].v < b[0].v then [a[0]] + MergeTerms(a[1..], b)
    else if b[0].v < a[0].v then [b[0]] + MergeTerms(a, b[1..])
    else
      var (c, rest) := (a[0].coeff + b[0].coeff, MergeTerms(a[1..], b[1..]));
      if c == 0 then rest else [Term(c, a[0].v)] + rest
  }

  lemma {:induction false} MergeVars(a: seq<Term>, b: seq<Term>)
    ensures forall t :: t in MergeTerms(a, b) ==> exists u :: (u in a || u in b) && u.v == t.v
    decreases |a| + |b|
  {
    if a == [] || b == [] {
    } else {
      var (a', b') := if a[0].v < b[0].v then (a[1..], b) else if b[0].v < a[0].v then (a, b[1..])
        else (a[1..], b[1..]);
      MergeVars(a', b');
      forall t | t in MergeTerms(a, b)
        ensures exists u :: (u in a || u in b) && u.v == t.v
      {
        if t.v != a[0].v && t.v != b[0].v {
          var u :| (u in a' || u in b') && u.v == t.v;
          assert u in a || u in b;
        } else {
          assert a[0] in a && b[0] in b;
        }
      }
    }
  }

  lemma AboveAll(terms: seq<Term>, v: nat)
    ensures Above(terms, v) <==> forall t :: t in terms ==> v < t.v
  {
  }

  lemma MergeAbove(a: seq<Term>, b: seq<Term>, v: nat)
    requires Above(a, v) && Above(b, v)
    ensures Above(MergeTerms(a, b), v)
  {
    AboveAll(a, v);
    AboveAll(b, v);
    AboveAll(MergeTerms(a, b), v);
    MergeVars(a, b);
  }

  lemma AboveTail(terms: seq<Term>, v: nat)
    requires Canonical(terms) && terms != [] && v < terms[0].v
    ensures Above(terms, v)
  {
    forall i | 0 <= i < |terms|
      ensures v < terms[i].v
    {
      if i > 0 {
        assert terms[i] == terms[1..][i - 1];
      }
    }
  }

  lemma {:induction false} MergeCanonical(a: seq<Term>, b: seq<Term>)
    requires Canonical(a) && Canonical(b)
    ensures Canonical(MergeTerms(a, b))
    decreases |a| + |b|
  {
    if a == [] || b == [] {
    } else if a[0].v < b[0].v {
      MergeCanonical(a[1..], b);
      AboveTail(b, a[0].v);
      MergeAbove(a[1..], b, a[0].v);
      assert MergeTerms(a, b)[1..] == MergeTerms(a[1..], b);
    } else if b[0].v < a[0].v {
      MergeCanonical(a, b[1..]);
      AboveTail(a, b[0].v);
      MergeAbove(a, b[1..], b[0].v);
      assert MergeTerms(a, b)[1..] == MergeTerms(a, b[1..]);
    } else {
      MergeCanonical(a[1..], b[1..]);
      MergeAbove(a[1..], b[1..], a[0].v);
      assert [Term(a[0].coeff + b[0].coeff, a[0].v)] + MergeTerms(a[1..], b[1..]) != [];
      assert ([Term(a[0].coeff + b[0].coeff, a[0].v)] + MergeTerms(a[1..], b[1..]))[1..] == MergeTerms(a[1..], b[1..]);
    }
  }

  lemma Distribute(a: int, b: int, x: int)
    ensures (a + b) * x == a * x + b * x
  {
  }

  lemma {:induction false} SumMerge(a: seq<Term>, b: seq<Term>, s: Assignment)
    ensures SumTerms(MergeTerms(a, b), s) == SumTerms(a, s) + SumTerms(b, s)
    decreases |a| + |b|
  {
    var r := MergeTerms(a, b);
    if a == [] || b == [] {
    } else if a[0].v < b[0].v {
      assert r[1..] == MergeTerms(a[1..], b);
      SumMerge(a[1..], b, s);
    } else if b[0].v < a[0].v {
      assert r[1..] == MergeTerms(a, b[1..]);
      SumMerge(a, b[1..], s);
    } else {
      SumMerge(a[1..], b[1..], s);
      var c := a[0].coeff + b[0].coeff;
      Distribute(a[0].coeff, b[0].coeff, s(a[0].v));
      if c != 0 {
        assert r[1..] == MergeTerms(a[1..], b[1..]);
      }
    }
  }

  function Add(x: Lc, y: Lc): (r: Lc)
    ensures forall s: Assignment :: Eval(r, s) == Eval(x, s) + Eval(y, s)
    ensures forall n :: Below(x, n) && Below(y, n) ==> Below(r, n)
    ensures forall v :: Mentions(r, v) ==> Mentions(x, v) || Mentions(y, v)
  {
    MergeCanonical(x.terms, y.terms);
    var r := Form(x.constant + y.constant, MergeTerms(x.terms, y.terms));
    AddFacts(x, y, r);
    r
  }

  lemma AddFacts(x: Lc, y: Lc, r: Lc)
    requires r == Form(x.constant + y.constant, MergeTerms(x.terms, y.terms))
    ensures forall s: Assignment :: Eval(r, s) == Eval(x, s) + Eval(y, s)
    ensures forall n :: Below(x, n) && Below(y, n) ==> Below(r, n)
    ensures forall v :: Mentions(r, v) ==> Mentions(x, v) || Mentions(y, v)
  {
    forall s: Assignment
      ensures Eval(r, s) == Eval(x, s) + Eval(y, s)
    {
      SumMerge(x.terms, y.terms, s);
    }
    MergeVars(x.terms, y.terms);
    forall n | Below(x, n) && Below(y, n)
      ensures Below(r, n)
    {
      forall i | 0 <= i < |r.terms|
        ensures r.terms[i].v < n
      {
        var t :| (t in x.terms || t in y.terms) && t.v == r.terms[i].v;
      }
    }
    forall v | Mentions(r, v)
      ensures Mentions(x, v) || Mentions(y, v)
    {
      var i :| 0 <= i < |r.terms| && r.terms[i].v == v;
      var t :| (t in x.terms || t in y.terms) && t.v == r.terms[i].v;
    }
  }

  function Scaled(terms: seq<Term>, c: int): (r: seq<Term>)
    ensures |r| == |terms|
    ensures forall i :: 0 <= i < |r| ==> r[i].v == terms[i].v && r[i].coeff == terms[i].coeff * c
  {
    seq(|terms|, i requires 0 <= i < |terms| => Term(terms[i].coeff * c, terms[i].v))
  }

  lemma {:induction false} ScaledCanonical(terms: seq<Term>, c: int)
    requires Canonical(terms) && c != 0
    ensures Canonical(Scaled(terms, c))
  {
    if terms != [] {
      assert Scaled(terms, c)[1..] == Scaled(terms[1..], c);
      ScaledCanonical(terms[1..], c);
      assert Scaled(terms, c)[0].coeff == terms[0].coeff * c;
      forall i | 0 <= i < |terms[1..]|
        ensures terms[0].v < Scaled(terms[1..], c)[i].v
      {
      }
    }
  }

  lemma {:induction false} SumScaled(terms: seq<Term>, c: int, s: Assignment)
    ensures SumTerms(Scaled(terms, c), s) == c * SumTerms(terms, s)
  {
    if terms != [] {
      assert Scaled(terms, c)[1..] == Scaled(terms[1..], c);
      SumScaled(terms[1..], c, s);
      var (k, x) := (terms[0].coeff, s(terms[0].v));
      assert (k * c) * x == c * (k * x);
      assert c * (k * x + SumTerms(terms[1..], s)) == c * (k * x) + c * SumTerms(terms[1..], s);
    }
  }

  function Scale(x: Lc, c: int): (r: Lc)
    ensures forall s: Assignment :: Eval(r, s) == c * Eval(x, s)
    ensures forall n :: Below(x, n) ==> Below(r, n)
    ensures forall v :: Mentions(r, v) ==> Mentions(x, v)
  {
    if c == 0 then Form(0, [])
    else
      ScaledCanonical(x.terms, c);
      var r := Form(x.constant * c, Scaled(x.terms, c));
      ScaleFacts(x, c, r);
      r
  }

  lemma ScaleFacts(x: Lc, c: int, r: Lc)
    requires c != 0 && r == Form(x.constant * c, Scaled(x.terms, c))
    ensures forall s: Assignment :: Eval(r, s) == c * Eval(x, s)
    ensures forall n :: Below(x, n) ==> Below(r, n)
    ensures forall v :: Mentions(r, v) ==> Mentions(x, v)
  {
    forall s: Assignment
      ensures Eval(r, s) == c * Eval(x, s)
    {
      SumScaled(x.terms, c, s);
      assert c * (x.constant + SumTerms(x.terms, s)) == c * x.constant + c * SumTerms(x.terms, s);
    }
  }

  function Sub(x: Lc, y: Lc): (r: Lc)
    ensures forall s: Assignment :: Eval(r, s) == Eval(x, s) - Eval(y, s)
    ensures forall n :: Below(x, n) && Below(y, n) ==> Below(r, n)
    ensures forall v :: Mentions(r, v) ==> Mentions(x, v) || Mentions(y, v)
  {
    Add(x, Scale(y, -1))
  }

  predicate IsConst(lc: Lc) {
    lc.terms == []
  }

  lemma ConstEval(lc: Lc, s: Assignment)
    requires IsConst(lc)
    ensures Eval(lc, s) == lc.constant
  {
  }

  lemma {:induction false} SumAgrees(terms: seq<Term>, s: Assignment, s': Assignment)
    requires forall i :: 0 <= i < |terms| ==> s(terms[i].v) == s'(terms[i].v)
    ensures SumTerms(terms, s) == SumTerms(terms, s')
  {
    if terms != [] {
      assert s(terms[0].v) == s'(terms[0].v);
      forall i | 0 <= i < |terms[1..]|
        ensures s(terms[1..][i].v) == s'(terms[1..][i].v)
      {
        assert terms[1..][i] == terms[i + 1];
      }
      SumAgrees(terms[1..], s, s');
    }
  }

  /** A form only reads the variables it mentions. */
  lemma EvalAgrees(lc: Lc, s: Assignment, s': Assignment)
    requires forall v :: Mentions(lc, v) ==> s(v) == s'(v)
    ensures Eval(lc, s) == Eval(lc, s')
  {
    forall i | 0 <= i < |lc.terms|
      ensures s(lc.terms[i].v) == s'(lc.terms[i].v)
    {
      assert Mentions(lc, lc.terms[i].v);
    }
    SumAgrees(lc.terms, s, s');
  }

  lemma EvalBelow(lc: Lc, n: nat, s: Assignment, s': Assignment)
    requires Below(lc, n) && forall v: nat :: v < n ==> s(v) == s'(v)
    ensures Eval(lc, s) == Eval(lc, s')
  {
    EvalAgrees(lc, s, s');
  }

  lemma {:induction false} Sorted(terms: seq<Term>, i: nat, j: nat)
    requires Canonical(terms) && i < j < |terms|
    ensures terms[i].v < terms[j].v
  {
    if i == 0 {
      assert terms[j] == terms[1..][j - 1];
    } else {
      Sorted(terms[1..], i - 1, j - 1);
    }
  }

  /** A form below `v + 1` whose value depends on `v` ends with `v`. */
  lemma LastVar(x: Lc, v: nat, s: Assignment, s': Assignment)
    requires Below(x, v + 1) && Eval(x, s) != Eval(x, s') && forall u: nat :: u != v ==> s(u) == s'(u)
    ensures x.terms != [] && x.terms[|x.terms| - 1].v == v
  {
    if !Mentions(x, v) {
      EvalAgrees(x, s, s');
    }
    var i :| 0 <= i < |x.terms| && x.terms[i].v == v;
    if i < |x.terms| - 1 {
      Sorted(x.terms, i, |x.terms| - 1);
    }
  }

  // ----- coefficients -----

  function Only(v: nat): Assignment {
    (u: nat) => if u == v then 1 else 0
  }

  function Zeros(): Assignment {
    (u: nat) => 0
  }

  /** What `x` grows by when variable `v` does. */
  function Coeff(x: Lc, v: nat): int {
    Eval(x, Only(v)) - Eval(x, Zeros())
  }

  lemma {:induction false} TermCoeff(terms: seq<Term>, v: nat)
    requires Canonical(terms)
    ensures SumTerms(terms, Zeros()) == 0
    ensures forall i :: 0 <= i < |terms| && terms[i].v == v ==> SumTerms(terms, Only(v)) == terms[i].coeff
    ensures (forall i :: 0 <= i < |terms| ==> terms[i].v != v) ==> SumTerms(terms, Only(v)) == 0
  {
    if terms != [] {
      TermCoeff(terms[1..], v);
      assert forall i :: 1 <= i < |terms| ==> terms[i] == terms[1..][i - 1];
      if terms[0].v == v {
        assert forall i :: 0 <= i < |terms[1..]| ==> terms[1..][i].v != v;
      }
    }
  }

  /** A form mentions exactly the variables with a nonzero coefficient. */
  lemma MentionsCoeff(x: Lc, v: nat)
    ensures Mentions(x, v) <==> Coeff(x, v) != 0
  {
    TermCoeff(x.terms, v);
    NonzeroTerms(x.terms);
  }

  lemma {:induction false} NonzeroTerms(terms: seq<Term>)
    requires Canonical(terms)
    ensures forall i :: 0 <= i < |terms| ==> terms[i].coeff != 0
  {
    if terms != [] {
      NonzeroTerms(terms[1..]);
      assert forall i :: 1 <= i < |terms| ==> terms[i] == terms[1..][i - 1];
    }
  }
}
