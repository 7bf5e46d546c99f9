/** Linear combinations reduced modulo the prime: one form for each function. */
module Reduction {
  import opened Fields
  import opened Linear

  /** The integer a form stands for, whatever the order of its terms. */
  function Sum(x: Form, s: Assignment): int {
    x.constant + SumTerms(x.terms, s)
  }

  ghost predicate SameValue(p: Prime, x: Form, y: Form, s: Assignment) {
    Cong(p, Sum(x, s), Sum(y, s))
  }

  // ----- reducing -----

  function ReduceTerms(p: Prime, ts: seq<Term>): (r: seq<Term>)
    ensures |r| == |ts|
  {
    if ts == [] then [] else [Term(ts[0].coeff % p, ts[0].v)] + ReduceTerms(p, ts[1..])
  }

  /** `sort_by_key`: stable. */
  function InsertTerm(t: Term, ts: seq<Term>): seq<Term> {
    if ts == [] || t.v <= ts[0].v then [t] + ts else [ts[0]] + InsertTerm(t, ts[1..])
  }

  function Sort(ts: seq<Term>): seq<Term> {
    if ts == [] then [] else InsertTerm(ts[0], Sort(ts[1..]))
  }

  /** Neighbours with one variable become one term. */
  function MergeRuns(ts: seq<Term>): seq<Term>
    decreases |ts|
  {
    if |ts| <= 1 then ts
    else if ts[0].v == ts[1].v then MergeRuns([Term(ts[0].coeff + ts[1].coeff, ts[0].v)] + ts[2..])
    else [ts[0]] + MergeRuns(ts[1..])
  }

  function DropZeros(ts: seq<Term>): seq<Term> {
    if ts == [] then []
    else if ts[0].coeff == 0 then DropZeros(ts[1..])
    else [ts[0]] + DropZeros(ts[1..])
  }

  function Simplified(ts: seq<Term>): seq<Term> {
    if Canonical(ts) then ts else DropZeros(MergeRuns(Sort(ts)))
  }

  /** Coefficients and constant in `[0, p)`, like terms merged, zero terms dropped, terms sorted. */
  function CanonicalLc(p: Prime, x: Form): Form {
    Form(x.constant % p, DropZeros(ReduceTerms(p, Simplified(ReduceTerms(p, x.terms)))))
  }

  // ----- values stay -----

  lemma {:induction false} ReduceSum(p: Prime, ts: seq<Term>, s: Assignment)
    ensures Cong(p, SumTerms(ReduceTerms(p, ts), s), SumTerms(ts, s))
  {
    if ts != [] {
      var r := ReduceTerms(p, ts);
      assert r[1..] == ReduceTerms(p, ts[1..]);
      ReduceSum(p, ts[1..], s);
      CongMod(p, ts[0].coeff);
      CongMul(p, ts[0].coeff % p, ts[0].coeff, s(ts[0].v), s(ts[0].v));
      CongAdd(p, ts[0].coeff % p * s(ts[0].v), ts[0].coeff * s(ts[0].v), SumTerms(r[1..], s), SumTerms(ts[1..], s));
    } else {
      assert ReduceTerms(p, ts) == [];
    }
  }

  lemma {:induction false} InsertSum(t: Term, ts: seq<Term>, s: Assignment)
    ensures SumTerms(InsertTerm(t, ts), s) == t.coeff * s(t.v) + SumTerms(ts, s)
  {
    if ts == [] || t.v <= ts[0].v {
      assert ([t] + ts)[1..] == ts;
    } else {
      InsertSum(t, ts[1..], s);
      assert ([ts[0]] + InsertTerm(t, ts[1..]))[1..] == InsertTerm(t, ts[1..]);
    }
  }

  lemma {:induction false} SortSum(ts: seq<Term>, s: Assignment)
    ensures SumTerms(Sort(ts), s) == SumTerms(ts, s)
  {
    if ts != [] {
      SortSum(ts[1..], s);
      InsertSum(ts[0], Sort(ts[1..]), s);
    }
  }

  lemma {:induction false} MergeRunsSum(ts: seq<Term>, s: Assignment)
    ensures SumTerms(MergeRuns(ts), s) == SumTerms(ts, s)
    decreases |ts|
  {
    if |ts| >= 2 {
      if ts[0].v == ts[1].v {
        var rest := [Term(ts[0].coeff + ts[1].coeff, ts[0].v)] + ts[2..];
        MergeRunsSum(rest, s);
        assert rest[1..] == ts[2..] == ts[1..][1..];
        Distribute(ts[0].coeff, ts[1].coeff, s(ts[0].v));
      } else {
        MergeRunsSum(ts[1..], s);
        assert ([ts[0]] + MergeRuns(ts[1..]))[1..] == MergeRuns(ts[1..]);
      }
    }
  }

  lemma {:induction false} DropZerosSum(ts: seq<Term>, s: Assignment)
    ensures SumTerms(DropZeros(ts), s) == SumTerms(ts, s)
  {
    if ts != [] {
      DropZerosSum(ts[1..], s);
      assert ([ts[0]] + DropZeros(ts[1..]))[1..] == DropZeros(ts[1..]);
      assert 0 * s(ts[0].v) == 0;
    }
  }

  lemma SimplifiedSum(ts: seq<Term>, s: Assignment)
    ensures SumTerms(Simplified(ts), s) == SumTerms(ts, s)
  {
    SortSum(ts, s);
    MergeRunsSum(Sort(ts), s);
    DropZerosSum(MergeRuns(Sort(ts)), s);
  }

  /** Reducing keeps the value in the field. */
  lemma CanonicalSum(p: Prime, x: Form, s: Assignment)
    ensures SameValue(p, CanonicalLc(p, x), x, s)
  {
    var once := ReduceTerms(p, x.terms);
    var twice := ReduceTerms(p, Simplified(once));
    ReduceSum(p, x.terms, s);
    SimplifiedSum(once, s);
    ReduceSum(p, Simplified(once), s);
    DropZerosSum(twice, s);
    CongMod(p, x.constant);
    CongAdd(p, x.constant % p, x.constant, SumTerms(twice, s), SumTerms(x.terms, s));
  }

  // ----- the form reached -----

  ghost predicate Sorted(ts: seq<Term>) {
    forall i, j :: 0 <= i < j < |ts| ==> ts[i].v <= ts[j].v
  }

  ghost predicate Rising(ts: seq<Term>) {
    forall i, j :: 0 <= i < j < |ts| ==> ts[i].v < ts[j].v
  }

  /** A reduced form. */
  ghost predicate Reduced(p: Prime, x: Form) {
    0 <= x.constant < p && Rising(x.terms) && forall i :: 0 <= i < |x.terms| ==> 0 < x.terms[i].coeff < p
  }

  lemma {:induction false} RisingCanonical(ts: seq<Term>)
    ensures Canonical(ts) <==> Rising(ts) && forall i :: 0 <= i < |ts| ==> ts[i].coeff != 0
  {
    if ts != [] {
      var rest := ts[1..];
      RisingCanonical(rest);
      assert forall i :: 0 <= i < |rest| ==> rest[i] == ts[i + 1];
      if Canonical(ts) {
        forall i, j | 0 <= i < j < |ts|
          ensures ts[i].v < ts[j].v
        {
          assert ts[j] == rest[j - 1];
          assert i > 0 ==> ts[i] == rest[i - 1];
        }
        forall i | 0 <= i < |ts|
          ensures ts[i].coeff != 0
        {
          assert i > 0 ==> ts[i] == rest[i - 1];
        }
      }
    }
  }

  lemma {:induction false} InsertSorted(t: Term, ts: seq<Term>)
    requires Sorted(ts)
    ensures Sorted(InsertTerm(t, ts))
    ensures forall u :: u in InsertTerm(t, ts) ==> u == t || u in ts
  {
    if ts != [] && t.v > ts[0].v {
      var rest := InsertTerm(t, ts[1..]);
      InsertSorted(t, ts[1..]);
      forall j | 0 <= j < |rest|
        ensures ts[0].v <= rest[j].v
      {
        assert rest[j] in rest;
      }
    }
  }

  lemma {:induction false} SortSorted(ts: seq<Term>)
    ensures Sorted(Sort(ts))
  {
    if ts != [] {
      SortSorted(ts[1..]);
      InsertSorted(ts[0], Sort(ts[1..]));
    }
  }

  lemma {:induction false} MergeRunsRising(ts: seq<Term>)
    requires Sorted(ts)
    ensures Rising(MergeRuns(ts))
    ensures ts != [] ==> MergeRuns(ts) != [] && MergeRuns(ts)[0].v == ts[0].v
    decreases |ts|
  {
    if |ts| >= 2 {
      if ts[0].v == ts[1].v {
        MergeRunsRising([Term(ts[0].coeff + ts[1].coeff, ts[0].v)] + ts[2..]);
      } else {
        var rest := MergeRuns(ts[1..]);
        MergeRunsRising(ts[1..]);
        forall j | 0 <= j < |rest|
          ensures ts[0].v < rest[j].v
        {
          assert j > 0 ==> rest[0].v < rest[j].v;
        }
      }
    }
  }

  lemma {:induction false} DropZerosFrom(ts: seq<Term>)
    ensures forall u :: u in DropZeros(ts) ==> u in ts && u.coeff != 0
  {
    if ts != [] {
      DropZerosFrom(ts[1..]);
    }
  }

  lemma {:induction false} DropZerosRising(ts: seq<Term>)
    requires Rising(ts)
    ensures Rising(DropZeros(ts))
  {
    if ts != [] {
      DropZerosRising(ts[1..]);
      DropZerosFrom(ts[1..]);
      RisingFirst(ts);
      RisingCons(ts[0], DropZeros(ts[1..]));
    }
  }

  lemma RisingFirst(ts: seq<Term>)
    requires Rising(ts) && ts != []
    ensures forall u :: u in ts[1..] ==> ts[0].v < u.v
  {
    forall u | u in ts[1..]
      ensures ts[0].v < u.v
    {
      var k :| 0 <= k < |ts[1..]| && ts[1..][k] == u;
      assert ts[k + 1] == u;
    }
  }

  lemma RisingCons(t: Term, ts: seq<Term>)
    requires Rising(ts) && forall u :: u in ts ==> t.v < u.v
    ensures Rising([t] + ts)
  {
    forall i, j | 0 <= i < j < |[t] + ts|
      ensures ([t] + ts)[i].v < ([t] + ts)[j].v
    {
      assert ([t] + ts)[j] == ts[j - 1] && ts[j - 1] in ts;
    }
  }

  lemma {:induction false} ReduceAt(p: Prime, ts: seq<Term>, i: nat)
    requires i < |ts|
    ensures ReduceTerms(p, ts)[i] == Term(ts[i].coeff % p, ts[i].v)
  {
    if i > 0 {
      ReduceAt(p, ts[1..], i - 1);
    }
  }

  lemma SimplifiedRising(ts: seq<Term>)
    ensures Rising(Simplified(ts))
  {
    RisingCanonical(ts);
    SortSorted(ts);
    MergeRunsRising(Sort(ts));
    DropZerosRising(MergeRuns(Sort(ts)));
  }

  lemma CanonicalReduced(p: Prime, x: Form)
    ensures Reduced(p, CanonicalLc(p, x))
  {
    var ts := Simplified(ReduceTerms(p, x.terms));
    var r := ReduceTerms(p, ts);
    SimplifiedRising(ReduceTerms(p, x.terms));
    forall i | 0 <= i < |ts|
      ensures r[i] == Term(ts[i].coeff % p, ts[i].v)
    {
      ReduceAt(p, ts, i);
    }
    DropZerosRising(r);
    DropZerosFrom(r);
    var out := DropZeros(r);
    forall i | 0 <= i < |out|
      ensures 0 < out[i].coeff < p
    {
      assert out[i] in out && out[i] in r;
      var j :| 0 <= j < |r| && r[j] == out[i];
    }
  }

  // ----- one form for each function -----

  lemma {:induction false} SameSlopes(a: seq<Term>, b: seq<Term>)
    requires Canonical(a) && Canonical(b)
    requires forall v: nat :: SumTerms(a, Only(v)) == SumTerms(b, Only(v))
    ensures a == b
  {
    if a == [] && b == [] {
    } else if b == [] || (a != [] && a[0].v < b[0].v) {
      TermCoeff(a, a[0].v);
      TermCoeff(b, a[0].v);
      LaterOnly(b, a[0].v);
      assert false;
    } else if a == [] || b[0].v < a[0].v {
      TermCoeff(a, b[0].v);
      TermCoeff(b, b[0].v);
      LaterOnly(a, b[0].v);
      assert false;
    } else {
      var v := a[0].v;
      TermCoeff(a, v);
      TermCoeff(b, v);
      forall u: nat
        ensures SumTerms(a[1..], Only(u)) == SumTerms(b[1..], Only(u))
      {
        assert SumTerms(a, Only(u)) == SumTerms(b, Only(u));
      }
      SameSlopes(a[1..], b[1..]);
      assert a == [a[0]] + a[1..] && b == [b[0]] + b[1..];
    }
  }

  lemma LaterOnly(ts: seq<Term>, v: nat)
    requires Canonical(ts) && (ts != [] ==> v < ts[0].v)
    ensures forall i :: 0 <= i < |ts| ==> ts[i].v != v
  {
    RisingCanonical(ts);
  }

  /** Reduced forms that agree everywhere are one form. */
  lemma ReducedUnique(p: Prime, x: Form, y: Form)
    requires Reduced(p, x) && Reduced(p, y)
    requires forall s: Assignment :: SameValue(p, x, y, s)
    ensures x == y
  {
    RisingCanonical(x.terms);
    RisingCanonical(y.terms);
    TermCoeff(x.terms, 0);
    TermCoeff(y.terms, 0);
    assert SameValue(p, x, y, Zeros());
    CongSmall(p, x.constant, y.constant);
    forall v: nat
      ensures SumTerms(x.terms, Only(v)) == SumTerms(y.terms, Only(v))
    {
      SlopeRange(p, x, v);
      SlopeRange(p, y, v);
      assert SameValue(p, x, y, Only(v));
      CongAdd(p, Sum(x, Only(v)), Sum(y, Only(v)), x.constant, y.constant);
      CongSmall(p, SumTerms(x.terms, Only(v)), SumTerms(y.terms, Only(v)));
    }
    SameSlopes(x.terms, y.terms);
  }

  lemma SlopeRange(p: Prime, x: Form, v: nat)
    requires Reduced(p, x)
    ensures 0 <= SumTerms(x.terms, Only(v)) < p
  {
    RisingCanonical(x.terms);
    TermCoeff(x.terms, v);
  }

  /** `canonical_lc` gives equal forms exactly to equal functions. */
  lemma CanonicalIffSame(p: Prime, x: Form, y: Form)
    ensures CanonicalLc(p, x) == CanonicalLc(p, y) <==> forall s: Assignment :: SameValue(p, x, y, s)
  {
    if CanonicalLc(p, x) == CanonicalLc(p, y) {
      forall s: Assignment
        ensures SameValue(p, x, y, s)
      {
        CanonicalSum(p, x, s);
        CanonicalSum(p, y, s);
      }
    }
    if forall s: Assignment :: SameValue(p, x, y, s) {
      CanonicalReduced(p, x);
      CanonicalReduced(p, y);
      forall s: Assignment
        ensures SameValue(p, CanonicalLc(p, x), CanonicalLc(p, y), s)
      {
        CanonicalSum(p, x, s);
        CanonicalSum(p, y, s);
        assert SameValue(p, x, y, s);
      }
      ReducedUnique(p, CanonicalLc(p, x), CanonicalLc(p, y));
    }
  }
}
