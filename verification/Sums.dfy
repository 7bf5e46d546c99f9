/**
 * Sums of stored linear combinations: merging sorted terms, reducing coefficients into the symmetric range of the
 * field, and when the reduction may be skipped.
 */
module Sums {
  import opened Fields
  import opened Linear
  import opened Intervals
  import opened Reduction

  // ----- adding stored forms -----

  /** A coefficient the reduction modulo the field leaves alone: small, or already in the symmetric range. */
  predicate Settled(c: int, half: nat) {
    IsI64(c) || (c + half >= 0 && c <= half)
  }

  ghost predicate AllSettled(constant: int, terms: seq<Term>, half: nat) {
    Settled(constant, half) && forall i :: 0 <= i < |terms| ==> Settled(terms[i].coeff, half)
  }

  function Signed(terms: seq<Term>, neg: bool): (r: seq<Term>)
    ensures |r| == |terms| && forall i :: 0 <= i < |r| ==>
      r[i] == Term(if neg then -terms[i].coeff else terms[i].coeff, terms[i].v)
  {
    seq(|terms|, i requires 0 <= i < |terms| => Term(if neg then -terms[i].coeff else terms[i].coeff, terms[i].v))
  }

  lemma SignedCanonical(terms: seq<Term>, neg: bool)
    requires Canonical(terms)
    ensures Canonical(Signed(terms, neg))
  {
    if neg {
      ScaledCanonical(terms, -1);
      assert Signed(terms, neg) == Scaled(terms, -1);
    } else {
      assert Signed(terms, neg) == terms;
    }
  }

  /** Where every variable of `a` is below every variable of `b`, merging is concatenation. */
  lemma {:induction false} MergeDisjoint(a: seq<Term>, b: seq<Term>)
    requires forall i :: 0 <= i < |a| && b != [] ==> a[i].v < b[0].v
    ensures MergeTerms(a, b) == a + b
    decreases |a|
  {
    if a != [] && b != [] {
      MergeDisjoint(a[1..], b);
      assert [a[0]] + a[1..] == a;
    }
  }

  lemma {:induction false} MergeSymmetric(a: seq<Term>, b: seq<Term>)
    ensures MergeTerms(a, b) == MergeTerms(b, a)
    decreases |a| + |b|
  {
    if a != [] && b != [] {
      if a[0].v < b[0].v {
        MergeSymmetric(a[1..], b);
      } else if b[0].v < a[0].v {
        MergeSymmetric(a, b[1..]);
      } else {
        MergeSymmetric(a[1..], b[1..]);
        assert a[0].coeff + b[0].coeff == b[0].coeff + a[0].coeff;
      }
    }
  }

  /** The merge of sorted operands. The flag says that a sum it computed is big: without it the sum of settled
      operands is settled. */
  method MergeSorted(ca: int, ta: seq<Term>, cb: int, tb: seq<Term>, neg: bool, ghost half: nat)
    returns (lc: Lc, big: bool)
    requires Canonical(ta) && Canonical(tb)
    ensures lc.constant == (if neg then ca - cb else ca + cb) && lc.terms == MergeTerms(ta, Signed(tb, neg))
    ensures !big ==> KeepsSettled(ca, ta, cb, tb, half, lc.constant, lc.terms)
  {
    hide MergeTerms, Canonical, KeepsSettled;
    var constant := if neg then ca - cb else ca + cb;
    var sb := Signed(tb, neg);
    big := !IsI64(constant);
    SignedCanonical(tb, neg);
    MergeCanonical(ta, sb);
    if !big {
      CopiedAll(ca, ta, cb, tb, neg, half, constant);
    }
    if ta == [] || tb == [] || ta[|ta| - 1].v < tb[0].v {
      Apart(ta, sb);
      return Form(constant, ta + sb), big;
    }
    if tb[|tb| - 1].v < ta[0].v {
      Apart(sb, ta);
      MergeSymmetric(ta, sb);
      return Form(constant, sb + ta), big;
    }
    var (i, j, out) := (0, 0, []);
    assert ta[0..] == ta && sb[0..] == sb;
    while i < |ta| || j < |tb|
      invariant 0 <= i <= |ta| && 0 <= j <= |tb| && out + MergeTerms(ta[i..], sb[j..]) == MergeTerms(ta, sb)
      invariant !big ==> KeepsSettled(ca, ta, cb, tb, half, constant, out)
      decreases |ta| - i + |tb| - j
    {
      MergeStep(ta, sb, i, j, out);
      if !big {
        ghost var t := if j == |tb| || (i < |ta| && ta[i].v < tb[j].v) then ta[i]
          else if i == |ta| || tb[j].v < ta[i].v then sb[j] else Term(ta[i].coeff + sb[j].coeff, ta[i].v);
        if t in ta || t in sb || IsI64(t.coeff) {
          Copied(ca, ta, cb, tb, neg, half, constant, out, t);
        }
      }
      if j == |tb| || (i < |ta| && ta[i].v < tb[j].v) {
        out := out + [ta[i]];
        i := i + 1;
      } else if i == |ta| || tb[j].v < ta[i].v {
        out := out + [sb[j]];
        j := j + 1;
      } else {
        var c := ta[i].coeff + sb[j].coeff;
        if c != 0 {
          big := big || !IsI64(c);
          out := out + [Term(c, ta[i].v)];
        }
        i := i + 1;
        j := j + 1;
      }
    }
    assert ta[|ta|..] == [] && sb[|sb|..] == [];
    NothingLeft(out);
    lc := Form(constant, out);
  }

  lemma Copied(ca: int, ta: seq<Term>, cb: int, tb: seq<Term>, neg: bool, half: nat, constant: int, out: seq<Term>,
               t: Term)
    requires KeepsSettled(ca, ta, cb, tb, half, constant, out) && (t in ta || t in Signed(tb, neg) || IsI64(t.coeff))
    ensures KeepsSettled(ca, ta, cb, tb, half, constant, out + [t])
  {
    if AllSettled(ca, ta, half) && AllSettled(cb, tb, half) && half >= 0x8000_0000_0000_0000 {
      SignedSettled(tb, neg, half, cb);
      assert Settled(t.coeff, half);
    }
  }

  lemma SignedSettled(terms: seq<Term>, neg: bool, half: nat, constant: int)
    requires AllSettled(constant, terms, half) && half >= 0x8000_0000_0000_0000
    ensures forall t :: t in Signed(terms, neg) ==> Settled(t.coeff, half)
  {
    var r := Signed(terms, neg);
    forall i | 0 <= i < |r|
      ensures Settled(r[i].coeff, half)
    {
      assert Settled(terms[i].coeff, half);
    }
  }

  lemma CopiedAll(ca: int, ta: seq<Term>, cb: int, tb: seq<Term>, neg: bool, half: nat, constant: int)
    requires IsI64(constant)
    ensures KeepsSettled(ca, ta, cb, tb, half, constant, [])
    ensures KeepsSettled(ca, ta, cb, tb, half, constant, ta + Signed(tb, neg))
    ensures KeepsSettled(ca, ta, cb, tb, half, constant, Signed(tb, neg) + ta)
  {
    if AllSettled(ca, ta, half) && AllSettled(cb, tb, half) && half >= 0x8000_0000_0000_0000 {
      SignedSettled(tb, neg, half, cb);
      var sb := Signed(tb, neg);
      forall i | 0 <= i < |sb|
        ensures Settled(sb[i].coeff, half)
      {
        assert sb[i] in sb;
      }
    }
  }

  /** If the operands are reduced, so is what was made of them. */
  ghost predicate KeepsSettled(ca: int, ta: seq<Term>, cb: int, tb: seq<Term>, half: nat, constant: int, out: seq<Term>)
    {
    AllSettled(ca, ta, half) && AllSettled(cb, tb, half) && half >= 0x8000_0000_0000_0000 ==>
      AllSettled(constant, out, half)
  }

  lemma NothingLeft(out: seq<Term>)
    ensures out + MergeTerms([], []) == out
  {
  }

  lemma Apart(a: seq<Term>, b: seq<Term>)
    requires Canonical(a) && Canonical(b) && (a != [] && b != [] ==> a[|a| - 1].v < b[0].v)
    ensures MergeTerms(a, b) == a + b
  {
    forall i | 0 <= i < |a| && b != []
      ensures a[i].v < b[0].v
    {
      if i < |a| - 1 {
        Linear.Sorted(a, i, |a| - 1);
      }
    }
    MergeDisjoint(a, b);
  }

  /** One step of the merge loop. */
  lemma MergeStep(a: seq<Term>, b: seq<Term>, i: nat, j: nat, out: seq<Term>)
    requires i <= |a| && j <= |b| && (i < |a| || j < |b|)
    ensures var m := out + MergeTerms(a[i..], b[j..]);
      if j == |b| || (i < |a| && a[i].v < b[j].v) then m == out + [a[i]] + MergeTerms(a[i + 1..], b[j..])
      else if i == |a| || b[j].v < a[i].v then m == out + [b[j]] + MergeTerms(a[i..], b[j + 1..])
      else
        var c := a[i].coeff + b[j].coeff;
        m == (if c == 0 then out else out + [Term(c, a[i].v)]) + MergeTerms(a[i + 1..], b[j + 1..])
  {
    if i < |a| {
      assert a[i..] == [a[i]] + a[i + 1..];
    }
    if j < |b| {
      assert b[j..] == [b[j]] + b[j + 1..];
    }
    if i < |a| && j < |b| {
      assert a[i..][1..] == a[i + 1..] && b[j..][1..] == b[j + 1..];
    }
  }

  // ----- sums -----

  /** The value of `(ca + Σ ta) ± (cb + Σ tb)`. */
  function SumValue(ca: int, ta: seq<Term>, cb: int, tb: seq<Term>, neg: bool, s: Assignment): int {
    var (a, b) := (ca + SumTerms(ta, s), cb + SumTerms(tb, s));
    if neg then a - b else a + b
  }

  lemma {:induction false} SignedSum(terms: seq<Term>, neg: bool, s: Assignment)
    ensures SumTerms(Signed(terms, neg), s) == if neg then -SumTerms(terms, s) else SumTerms(terms, s)
  {
    if terms != [] {
      assert Signed(terms, neg)[1..] == Signed(terms[1..], neg);
      SignedSum(terms[1..], neg, s);
      NegatedTerm(terms[0].coeff, s(terms[0].v));
    }
  }

  lemma NegatedTerm(c: int, x: int)
    ensures -c * x == -(c * x)
  {
  }

  lemma {:induction false} ConcatSum(a: seq<Term>, b: seq<Term>, s: Assignment)
    ensures SumTerms(a + b, s) == SumTerms(a, s) + SumTerms(b, s)
  {
    if a == [] {
      assert a + b == b;
    } else {
      assert (a + b)[1..] == a[1..] + b;
      ConcatSum(a[1..], b, s);
    }
  }

  lemma SimplifiedCanonical(ts: seq<Term>)
    ensures Canonical(Simplified(ts))
  {
    SimplifiedRising(ts);
    RisingCanonical(Simplified(ts));
    RisingCanonical(ts);
    DropZerosFrom(MergeRuns(Sort(ts)));
    forall i | 0 <= i < |Simplified(ts)|
      ensures Simplified(ts)[i].coeff != 0
    {
      assert Simplified(ts)[i] in Simplified(ts);
    }
  }

  /**
   * `(ca + Σ ta) ± (cb + Σ tb)` in canonical form, whatever order the terms come in. Without the flag the sum of
   * settled operands is settled, so that reducing it changes nothing.
   */
  method MergeLc(ca: int, ta: seq<Term>, cb: int, tb: seq<Term>, neg: bool, ghost half: nat) returns (lc: Lc, big: bool)
    ensures forall s: Assignment :: Eval(lc, s) == SumValue(ca, ta, cb, tb, neg, s)
    ensures !big ==> KeepsSettled(ca, ta, cb, tb, half, lc.constant, lc.terms)
    ensures Canonical(ta) && Canonical(tb) ==> lc.terms == MergeTerms(ta, Signed(tb, neg))
  {
    if Canonical(ta) && Canonical(tb) {
      lc, big := MergeSorted(ca, ta, cb, tb, neg, half);
      hide Canonical, KeepsSettled, MergeTerms;
      forall s: Assignment
        ensures Eval(lc, s) == SumValue(ca, ta, cb, tb, neg, s)
      {
        SumMerge(ta, Signed(tb, neg), s);
        SignedSum(tb, neg, s);
      }
    } else {
      hide Canonical, Simplified;
      var all := ta + Signed(tb, neg);
      SimplifiedCanonical(all);
      lc, big := Form(if neg then ca - cb else ca + cb, Simplified(all)), true;
      forall s: Assignment
        ensures Eval(lc, s) == SumValue(ca, ta, cb, tb, neg, s)
      {
        SimplifiedSum(all, s);
        ConcatSum(ta, Signed(tb, neg), s);
        SignedSum(tb, neg, s);
      }
    }
  }

  // ----- reducing -----

  /** A coefficient in the symmetric range, if it was not settled. */
  function Fixed(p: Prime, c: int): int {
    var half := p / 2;
    if Settled(c, half) then c
    else var r := c % p; if r > half then r - p else r
  }

  function FixedTerms(p: Prime, ts: seq<Term>): (r: seq<Term>)
    ensures |r| == |ts| && forall i :: 0 <= i < |ts| ==> r[i] == Term(Fixed(p, ts[i].coeff), ts[i].v)
  {
    seq(|ts|, i requires 0 <= i < |ts| => Term(Fixed(p, ts[i].coeff), ts[i].v))
  }

  /** Some coefficient was reduced to zero. */
  predicate Vanishes(p: Prime, ts: seq<Term>) {
    exists i :: 0 <= i < |ts| && !Settled(ts[i].coeff, p / 2) && Fixed(p, ts[i].coeff) == 0
  }

  function ReducedLc(p: Prime, lc: Form): Form {
    var ts := FixedTerms(p, lc.terms);
    Form(Fixed(p, lc.constant), if Vanishes(p, lc.terms) then Simplified(ts) else ts)
  }

  method ReduceLc(p: Prime, lc: Form) returns (r: Form)
    ensures r == ReducedLc(p, lc)
  {
    hide Fixed, Settled, IsPrime;
    var half := p / 2;
    var (terms, zero) := ([], false);
    for i := 0 to |lc.terms|
      invariant |terms| == i && forall j :: 0 <= j < i ==> terms[j] == FixedTerms(p, lc.terms)[j]
      invariant zero <==> exists j ::
        0 <= j < i && !Settled(lc.terms[j].coeff, half) && Fixed(p, lc.terms[j].coeff) == 0
    {
      var t := lc.terms[i];
      var c := Fixed(p, t.coeff);
      zero := zero || (!Settled(t.coeff, half) && c == 0);
      terms := terms + [Term(c, t.v)];
    }
    assert terms == FixedTerms(p, lc.terms);
    r := Form(Fixed(p, lc.constant), if zero then Simplified(terms) else terms);
  }

  lemma FixedCong(p: Prime, c: int)
    ensures Cong(p, Fixed(p, c), c)
    ensures -(p / 2) - 1 < Fixed(p, c) <= p / 2 || Settled(c, p / 2)
  {
    if !Settled(c, p / 2) {
      var r := c % p;
      CongMod(p, c);
      if r > p / 2 {
        MultipleDivides(-1, p);
        CongIff(p, r - p, r);
      }
    }
  }

  /** The reduction settles every coefficient. */
  lemma FixedSettles(p: Prime, c: int)
    requires p % 2 == 1
    ensures Settled(Fixed(p, c), p / 2)
  {
    FixedCong(p, c);
  }

  lemma {:induction false} FixedSum(p: Prime, ts: seq<Term>, s: Assignment)
    ensures Cong(p, SumTerms(FixedTerms(p, ts), s), SumTerms(ts, s))
  {
    hide Fixed, IsPrime;
    if ts != [] {
      var r := FixedTerms(p, ts);
      assert r[1..] == FixedTerms(p, ts[1..]);
      FixedSum(p, ts[1..], s);
      FixedCong(p, ts[0].coeff);
      CongMul(p, r[0].coeff, ts[0].coeff, s(ts[0].v), s(ts[0].v));
      CongAdd(p, r[0].coeff * s(ts[0].v), ts[0].coeff * s(ts[0].v), SumTerms(r[1..], s), SumTerms(ts[1..], s));
    }
  }

  /** Reducing keeps the value in the field. */
  lemma ReduceKeepsValue(p: Prime, lc: Form, s: Assignment)
    ensures SameValue(p, ReducedLc(p, lc), lc, s)
  {
    hide Fixed, IsPrime, FixedTerms;
    var ts := FixedTerms(p, lc.terms);
    FixedSum(p, lc.terms, s);
    SimplifiedSum(ts, s);
    FixedCong(p, lc.constant);
    CongAdd(p, Fixed(p, lc.constant), lc.constant, SumTerms(ts, s), SumTerms(lc.terms, s));
  }

  /** Reducing a form that is settled changes nothing. */
  lemma SettledStays(p: Prime, lc: Form)
    requires AllSettled(lc.constant, lc.terms, p / 2)
    ensures ReducedLc(p, lc) == lc
  {
    assert FixedTerms(p, lc.terms) == lc.terms;
  }

  // ----- what reducing leaves -----

  lemma {:induction false} SortStays(ts: seq<Term>)
    requires Rising(ts)
    ensures Sort(ts) == ts
  {
    if ts != [] {
      RisingTail(ts);
      SortStays(ts[1..]);
    }
  }

  lemma {:induction false} RunsStay(ts: seq<Term>)
    requires Rising(ts)
    ensures MergeRuns(ts) == ts
    decreases |ts|
  {
    if |ts| >= 2 {
      RisingTail(ts);
      RunsStay(ts[1..]);
    }
  }

  lemma RisingTail(ts: seq<Term>)
    requires Rising(ts) && ts != []
    ensures Rising(ts[1..]) && (|ts| >= 2 ==> ts[0].v < ts[1].v)
  {
    forall i, j | 0 <= i < j < |ts[1..]|
      ensures ts[1..][i].v < ts[1..][j].v
    {
      assert ts[i + 1].v < ts[j + 1].v;
    }
  }

  lemma OddPrime(p: Prime)
    requires p > 2
    ensures p % 2 == 1
  {
    var d: nat := 2;
    assert IsPrime(p) && !Divides(d, p);
  }

  /** The reduction of a form in order is in order, without zeros, and settled: sums of reduced forms are reduced
      forms. */
  lemma ReducedSettles(p: Prime, lc: Lc)
    requires p > 2
    ensures var r := ReducedLc(p, lc); Canonical(r.terms) && AllSettled(r.constant, r.terms, p / 2)
  {
    hide IsPrime, Fixed, Settled;
    var (ts, r) := (FixedTerms(p, lc.terms), ReducedLc(p, lc));
    OddPrime(p);
    RisingCanonical(lc.terms);
    assert Rising(ts);
    SortStays(ts);
    RunsStay(ts);
    DropZerosFrom(ts);
    RisingCanonical(ts);
    FixedSettles(p, lc.constant);
    SimplifiedCanonical(ts);
    forall i | 0 <= i < |r.terms|
      ensures Settled(r.terms[i].coeff, p / 2)
    {
      assert r.terms[i] in r.terms && r.terms[i] in ts;
      var j :| 0 <= j < |ts| && ts[j] == r.terms[i];
      FixedSettles(p, lc.terms[j].coeff);
    }
    if !Vanishes(p, lc.terms) {
      forall i | 0 <= i < |ts|
        ensures ts[i].coeff != 0
      {
        FixedSame(p, lc.terms[i].coeff);
      }
    }
  }

  lemma FixedSame(p: Prime, c: int)
    ensures Settled(c, p / 2) ==> Fixed(p, c) == c
  {
  }

  /** So the flag lets the reduction of a sum be skipped only when it would change nothing. */
  method AddReduced(p: Prime, ca: int, ta: seq<Term>, cb: int, tb: seq<Term>, neg: bool) returns (r: Form)
    requires AllSettled(ca, ta, p / 2) && AllSettled(cb, tb, p / 2) && p / 2 >= 0x8000_0000_0000_0000
    ensures exists lc: Lc :: r == ReducedLc(p, lc) && forall s: Assignment ::
      Eval(lc, s) == SumValue(ca, ta, cb, tb, neg, s)
    ensures forall s: Assignment :: Cong(p, Sum(r, s), SumValue(ca, ta, cb, tb, neg, s))
    ensures Canonical(r.terms) && AllSettled(r.constant, r.terms, p / 2)
  {
    hide IsPrime, AllSettled, ReducedLc, Canonical;
    var lc, big := MergeLc(ca, ta, cb, tb, neg, p / 2);
    if big {
      r := ReduceLc(p, lc);
    } else {
      SettledStays(p, lc);
      r := lc;
    }
    ReducedSettles(p, lc);
    forall s: Assignment
      ensures Cong(p, Sum(r, s), SumValue(ca, ta, cb, tb, neg, s))
    {
      ReduceKeepsValue(p, lc, s);
      assert Sum(lc, s) == Eval(lc, s);
    }
  }
}
