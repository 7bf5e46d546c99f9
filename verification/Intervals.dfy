/**
 * Bounds of linear forms, from what is proven of their variables: bits, widths and learned maxima. Every
 * conclusion holds in every solution of the circuit.
 */
module Intervals {
  import opened Words
  import opened Fields
  import opened Linear
  import opened Circuits
  import S = SymValues

  datatype Facts = Facts(booleans: set<nat>, computed: map<nat, seq<Lc>>, width: map<nat, nat>, max: map<nat, nat>)

  ghost predicate VarBelow(p: Prime, c: Circuit, v: nat, bound: nat)
    requires Indexed(c)
  {
    forall s: Assignment :: Meets(p, c, s) ==> s(v) % p < bound
  }

  ghost predicate OkFacts(p: Prime, c: Circuit, f: Facts)
    requires Indexed(c)
  {
    && (forall v :: v in f.booleans ==> IsBit(p, c, Var(v)))
    && (forall v :: v in f.computed ==> OkBits(p, c, v, f.computed[v]))
    && (forall v :: v in f.width ==> VarBelow(p, c, v, Pow2(f.width[v])))
    && (forall v :: v in f.max ==> VarBelow(p, c, v, f.max[v] + 1))
  }

  /** What the functions need to end: a computed bit 0 ends with its key. */
  ghost predicate Ending(f: Facts) {
    forall v :: v in f.computed ==> f.computed[v] != [] && EndsIn(f.computed[v][0], v)
  }

  predicate IsI64(x: int) {
    -0x8000_0000_0000_0000 <= x < 0x8000_0000_0000_0000
  }

  function U128(x: nat): Option<nat> {
    if x < Pow2(128) then Some(x) else None
  }

  // ----- taking out a computed bit 0 -----

  /** `x` as `c·b₀ + rest` with `c > 0`, by the term `x.terms[i]` if that is a decomposition's top bit. */
  function SplitAt(f: Facts, x: Lc, i: nat): Option<(int, Lc)>
    requires Ending(f) && i < |x.terms|
  {
    var t := x.terms[i];
    if t.v !in f.computed then None
    else
      var b0 := f.computed[t.v][0];
      var top := b0.terms[|b0.terms| - 1].coeff;
      if !IsI64(top) || !IsI64(t.coeff) || t.coeff % -top != 0 || t.coeff > 0 then None
      else var c := -t.coeff / -top; Some((c, Sub(x, Scale(b0, c))))
  }

  /** The highest of the first `n` terms that can be taken out. */
  function SplitBelow(f: Facts, x: Lc, n: nat): Option<(int, Lc)>
    requires Ending(f) && n <= |x.terms|
  {
    if n == 0 then None
    else match SplitAt(f, x, n - 1)
      case Some(r) => Some(r)
      case None => SplitBelow(f, x, n - 1)
  }

  function SplitComputedBit0(f: Facts, x: Lc): Option<(int, Lc)>
    requires Ending(f)
  {
    SplitBelow(f, x, |x.terms|)
  }

  /** Which of the variables below `n` occur, as a binary number. */
  ghost function Weight(x: Lc, n: nat): nat {
    if n == 0 then 0 else Weight(x, n - 1) + if Mentions(x, n - 1) then Pow2(n - 1) else 0
  }

  lemma {:induction false} WeightSmall(x: Lc, n: nat)
    ensures Weight(x, n) < Pow2(n)
  {
    if n > 0 {
      WeightSmall(x, n - 1);
    }
  }

  /** Losing variable `t` and gaining only lower ones makes a form lighter. */
  lemma {:induction false} Lighter(x: Lc, y: Lc, t: nat, n: nat)
    requires Mentions(x, t) && !Mentions(y, t) && t < n
    requires forall v: nat :: v > t && Mentions(y, v) ==> Mentions(x, v)
    ensures Weight(y, n) < Weight(x, n)
  {
    if n == t + 1 {
      WeightSmall(y, t);
    } else {
      Lighter(x, y, t, n - 1);
    }
  }

  /** What taking out a bit 0 leaves. */
  ghost predicate Splits(f: Facts, x: Lc, t: nat, c: int, rest: Lc) {
    && t in f.computed && f.computed[t] != [] && c > 0
    && rest == Sub(x, Scale(f.computed[t][0], c)) && Mentions(x, t) && !Mentions(rest, t)
  }

  lemma SplitAtSplits(f: Facts, x: Lc, i: nat)
    requires Ending(f) && i < |x.terms| && SplitAt(f, x, i).Some?
    ensures var (c, rest) := SplitAt(f, x, i).value; Splits(f, x, x.terms[i].v, c, rest)
  {
    hide Eval, Canonical, Coeff, Mentions;
    var (t, (c, rest)) := (x.terms[i], SplitAt(f, x, i).value);
    var b0 := f.computed[t.v][0];
    var k := -b0.terms[|b0.terms| - 1].coeff;
    NonzeroTerms(x.terms);
    CoeffOf(x, i);
    CoeffOf(b0, |b0.terms| - 1);
    ExactQuotient(t.coeff, k);
    CoeffSub(x, b0, c, t.v);
    MentionsCoeff(x, t.v);
    MentionsCoeff(rest, t.v);
  }

  lemma CoeffOf(x: Lc, i: nat)
    requires i < |x.terms|
    ensures Coeff(x, x.terms[i].v) == x.terms[i].coeff
  {
    TermCoeff(x.terms, x.terms[i].v);
  }

  lemma ExactQuotient(a: int, k: int)
    requires a < 0 && k > 0 && a % k == 0
    ensures -a / k > 0 && a - (-a / k) * -k == 0
  {
    NegDivides(k, a);
    var c := Quotient(-a, k);
    if c <= 0 {
      ScaleBound(-c, 0, k);
    }
    assert c * -k == -(c * k);
  }

  lemma CoeffSub(x: Lc, y: Lc, c: int, v: nat)
    ensures Coeff(Sub(x, Scale(y, c)), v) == Coeff(x, v) - c * Coeff(y, v)
  {
    hide Eval, Mentions, Canonical, Below;
    var (a, b) := (Eval(y, Only(v)), Eval(y, Zeros()));
    assert c * (a - b) == c * a - c * b;
  }

  lemma {:induction false} SplitBelowSplits(f: Facts, x: Lc, n: nat)
    requires Ending(f) && n <= |x.terms| && SplitBelow(f, x, n).Some?
    ensures var (c, rest) := SplitBelow(f, x, n).value; exists t :: Splits(f, x, t, c, rest)
  {
    if SplitAt(f, x, n - 1).Some? {
      SplitAtSplits(f, x, n - 1);
    } else {
      SplitBelowSplits(f, x, n - 1);
    }
  }

  /** Repeated splitting ends. */
  lemma SplitEnds(f: Facts, x: Lc, n: nat)
    requires Ending(f) && Below(x, n) && SplitComputedBit0(f, x).Some?
    ensures var (c, rest) := SplitComputedBit0(f, x).value; Below(rest, n) && Weight(rest, n) < Weight(x, n)
  {
    hide Mentions, Canonical, Weight, Eval, SplitBelow;
    SplitBelowSplits(f, x, |x.terms|);
    var (c, rest) := SplitComputedBit0(f, x).value;
    var t :| Splits(f, x, t, c, rest);
    EndsBelow(f.computed[t][0], t);
    RestBelow(x, f.computed[t][0], c, t, n);
    Lighter(x, rest, t, n);
  }

  lemma EndsBelow(x: Lc, t: nat)
    requires EndsIn(x, t)
    ensures forall v: nat :: Mentions(x, v) ==> v <= t
  {
    forall v: nat | Mentions(x, v)
      ensures v <= t
    {
      var i :| 0 <= i < |x.terms| && x.terms[i].v == v;
      if i < |x.terms| - 1 {
        Sorted(x.terms, i, |x.terms| - 1);
      }
    }
  }

  lemma RestBelow(x: Lc, y: Lc, c: int, t: nat, n: nat)
    requires Below(x, n) && Mentions(x, t) && forall v: nat :: Mentions(y, v) ==> v <= t
    ensures t < n && var rest := Sub(x, Scale(y, c)); Below(rest, n) && forall v: nat :: v > t && Mentions(rest, v) ==>
      Mentions(x, v)
  {
    var rest := Sub(x, Scale(y, c));
    assert t < n;
    forall v: nat | Mentions(rest, v)
      ensures v < n && (v > t ==> Mentions(x, v))
    {
      assert Mentions(x, v) || Mentions(y, v);
    }
    forall i | 0 <= i < |rest.terms|
      ensures rest.terms[i].v < n
    {
      assert Mentions(rest, rest.terms[i].v);
    }
  }

  /** In every solution the split is an equation of integers modulo `p`, with a bit as its first part. */
  lemma SplitValue(p: Prime, c0: Circuit, f: Facts, x: Lc, s: Assignment)
    requires Indexed(c0) && OkFacts(p, c0, f) && Ending(f) && SplitComputedBit0(f, x).Some? && Meets(p, c0, s)
    ensures var (c, rest) := SplitComputedBit0(f, x).value;
      c > 0 && exists b: nat :: b <= 1 && Cong(p, Eval(x, s), c * b + Eval(rest, s))
  {
    hide Mentions, Canonical, Weight, Eval, SplitBelow, IsPrime, Cong, Value;
    SplitBelowSplits(f, x, |x.terms|);
    var (c, rest) := SplitComputedBit0(f, x).value;
    var t :| Splits(f, x, t, c, rest);
    var b0 := f.computed[t][0];
    assert OkBits(p, c0, t, f.computed[t]);
    assert IsBit(p, c0, b0);
    SplitCong(p, x, b0, c, rest, s);
  }

  lemma SplitCong(p: Prime, x: Lc, y: Lc, c: int, rest: Lc, s: Assignment)
    requires rest == Sub(x, Scale(y, c))
    ensures Cong(p, Eval(x, s), c * Value(p, y, s) + Eval(rest, s))
  {
    hide IsPrime;
    var (e, b) := (Eval(y, s), Value(p, y, s));
    assert Eval(x, s) == c * e + Eval(rest, s);
    CongMod(p, e);
    CongMul(p, c, c, b, e);
    CongAdd(p, c * b, c * e, Eval(rest, s), Eval(rest, s));
  }

  // ----- upper bounds -----

  /** The largest value a variable can have, where one is known. */
  function VarMax(f: Facts, v: nat): Option<nat> {
    if v in f.booleans then Some(1)
    else
      var w := if v in f.width && f.width[v] < 64 then Some(Pow2(f.width[v]) - 1) else None;
      var m := if v in f.max then Some(f.max[v]) else None;
      if w.Some? && m.Some? then Some(if w.value <= m.value then w.value else m.value) else if w.Some? then w else m
  }

  function SumMax(f: Facts, terms: seq<Term>, acc: nat): Option<nat>
    decreases |terms|
  {
    if terms == [] then Some(acc)
    else
      var t := terms[0];
      if !IsI64(t.coeff) || t.coeff < 0 then None
      else
        match VarMax(f, t.v)
        case None => None
        case Some(m) =>
          match U128(t.coeff * m)
          case None => None
          case Some(y) => match U128(acc + y) case None => None case Some(z) => SumMax(f, terms[1..], z)
  }

  /** An upper bound of the integer `x`, whose variables are below `n`. */
  function LcMax(f: Facts, x: Lc, n: nat): Option<nat>
    requires Ending(f) && Below(x, n)
    decreases Weight(x, n)
  {
    match SplitComputedBit0(f, x)
    case Some((c, rest)) =>
      SplitEnds(f, x, n);
      (match LcMax(f, rest, n) case None => None case Some(m) => if m + c >= 0 then U128(m + c) else None)
    case None => if !IsI64(x.constant) || x.constant < 0 then None else SumMax(f, x.terms, x.constant)
  }

  /** The value of a form with non-negative coefficients over the variables' residues. */
  function Total(p: Prime, x: Lc, s: Assignment): int {
    Eval(x, Residue(p, s))
  }

  function Residue(p: Prime, s: Assignment): Assignment {
    (v: nat) => s(v) % p
  }

  lemma {:induction false} SumResidue(p: Prime, terms: seq<Term>, s: Assignment)
    ensures Cong(p, SumTerms(terms, s), SumTerms(terms, Residue(p, s)))
  {
    if terms != [] {
      SumResidue(p, terms[1..], s);
      CongMod(p, s(terms[0].v));
      CongMul(p, terms[0].coeff, terms[0].coeff, s(terms[0].v), s(terms[0].v) % p);
      CongAdd(p, terms[0].coeff * s(terms[0].v), terms[0].coeff * (s(terms[0].v) % p),
              SumTerms(terms[1..], s), SumTerms(terms[1..], Residue(p, s)));
    }
  }

  lemma TotalCong(p: Prime, x: Lc, s: Assignment)
    ensures Cong(p, Eval(x, s), Total(p, x, s))
  {
    SumResidue(p, x.terms, s);
    CongAdd(p, x.constant, x.constant, SumTerms(x.terms, s), SumTerms(x.terms, Residue(p, s)));
  }

  /** A total in range is the value. */
  lemma TotalIsValue(p: Prime, x: Lc, s: Assignment)
    requires 0 <= Total(p, x, s) < p
    ensures Value(p, x, s) == Total(p, x, s)
  {
    TotalCong(p, x, s);
    ModSmall(Total(p, x, s), p);
  }

  lemma VarMaxSound(p: Prime, c: Circuit, f: Facts, v: nat, s: Assignment)
    requires Indexed(c) && OkFacts(p, c, f) && Meets(p, c, s) && VarMax(f, v).Some?
    ensures s(v) % p <= VarMax(f, v).value
  {
    if v in f.booleans {
      assert IsBit(p, c, Var(v));
      assert Value(p, Var(v), s) <= 1;
    } else {
      assert v in f.width ==> VarBelow(p, c, v, Pow2(f.width[v]));
      assert v in f.max ==> VarBelow(p, c, v, f.max[v] + 1);
    }
  }

  lemma ScaleBound(c: int, x: int, m: int)
    requires c >= 0 && 0 <= x <= m
    ensures 0 <= c * x <= c * m
  {
  }

  lemma {:induction false} SumMaxSound(p: Prime, c: Circuit, f: Facts, terms: seq<Term>, acc: nat, s: Assignment)
    requires Indexed(c) && OkFacts(p, c, f) && Meets(p, c, s) && SumMax(f, terms, acc).Some?
    ensures 0 <= SumTerms(terms, Residue(p, s)) && acc + SumTerms(terms, Residue(p, s)) <= SumMax(f, terms, acc).value
    ensures acc < Pow2(128) ==> SumMax(f, terms, acc).value < Pow2(128)
    decreases |terms|
  {
    hide OkFacts, Meets, Pow2, VarMax, IsPrime;
    if terms != [] {
      var (t, x) := (terms[0], Residue(p, s)(terms[0].v));
      var m := VarMax(f, t.v).value;
      VarMaxSound(p, c, f, t.v, s);
      ScaleBound(t.coeff, x, m);
      SumMaxSound(p, c, f, terms[1..], acc + t.coeff * m, s);
    }
  }

  lemma Bound128(p: Prime)
    requires p > Pow2(253)
    ensures Pow2(128) < p && Pow2(64) < p
  {
    Pow2Mono(128, 253);
    Pow2Mono(64, 253);
  }

  /** `LcMax` bounds the field value in every solution. */
  lemma {:induction false} LcMaxSound(p: Prime, c: Circuit, f: Facts, x: Lc, n: nat, s: Assignment)
    requires p > Pow2(253) && Indexed(c) && OkFacts(p, c, f) && Ending(f) && Below(x, n) && Meets(p, c, s)
    requires LcMax(f, x, n).Some?
    ensures Value(p, x, s) <= LcMax(f, x, n).value && LcMax(f, x, n).value < Pow2(128)
    ensures SplitComputedBit0(f, x).None? ==> Value(p, x, s) == Total(p, x, s)
    decreases Weight(x, n)
  {
    hide OkFacts, Meets, Pow2, IsPrime, SplitComputedBit0, Ending, Mentions, Canonical, Eval, Weight, SumMax, Cong,
      Value;
    Bound128(p);
    match SplitComputedBit0(f, x) {
      case Some((k, rest)) =>
        SplitEnds(f, x, n);
        LcMaxSound(p, c, f, rest, n, s);
        SplitValue(p, c, f, x, s);
        var b: nat :| b <= 1 && Cong(p, Eval(x, s), k * b + Eval(rest, s));
        SplitBound(p, x, k, b, rest, s);
      case None =>
        BaseBound(p, c, f, x, s);
    }
  }

  lemma BaseBound(p: Prime, c: Circuit, f: Facts, x: Lc, s: Assignment)
    requires p > Pow2(253) && Indexed(c) && OkFacts(p, c, f) && Meets(p, c, s)
    requires IsI64(x.constant) && x.constant >= 0 && SumMax(f, x.terms, x.constant).Some?
    ensures var m := SumMax(f, x.terms, x.constant).value; Value(p, x, s) == Total(p, x, s) <= m < Pow2(128)
  {
    hide OkFacts, Meets, Pow2, IsPrime, SumMax;
    SumMaxSound(p, c, f, x.terms, x.constant, s);
    SmallConstant(x.constant);
    Bound128(p);
    TotalIsValue(p, x, s);
  }

  lemma SmallConstant(x: int)
    requires IsI64(x)
    ensures x < Pow2(128)
  {
    Pow2Add(32, 32);
    TwoTo32Here();
    Pow2Mono(64, 128);
  }

  lemma TwoTo32Here()
    ensures Pow2(32) == 0x1_0000_0000
  {
    assert Pow2(8) == 256;
    Pow2Add(8, 8);
    Pow2Add(16, 16);
  }

  lemma SplitBound(p: Prime, x: Lc, c: int, b: nat, r: Lc, s: Assignment)
    requires c > 0 && b <= 1 && Cong(p, Eval(x, s), c * b + Eval(r, s)) && Value(p, r, s) + c < p
    ensures Value(p, x, s) <= Value(p, r, s) + c
  {
    hide Eval, IsPrime;
    var (y, z) := (Eval(r, s), Value(p, r, s));
    CongMod(p, y);
    CongAdd(p, c * b, c * b, y, z);
    ScaleBound(c, b, 1);
    ModSmall(c * b + z, p);
  }

  // ----- taking a form apart -----

  predicate NonNegative(terms: seq<Term>) {
    forall i :: 0 <= i < |terms| ==> IsI64(terms[i].coeff) && terms[i].coeff >= 0
  }

  /** The parts of each coefficient below and above `m`. */
  function LowTerms(terms: seq<Term>, m: nat): Lc
    requires m > 0
    decreases |terms|
  {
    if terms == [] then Const(0) else Add(Scale(Var(terms[0].v), terms[0].coeff % m), LowTerms(terms[1..], m))
  }

  function HighTerms(terms: seq<Term>, m: nat): Lc
    requires m > 0
    decreases |terms|
  {
    if terms == [] then Const(0) else Add(Scale(Var(terms[0].v), terms[0].coeff / m), HighTerms(terms[1..], m))
  }

  lemma {:induction false} LowHighAt(terms: seq<Term>, m: nat, s: Assignment)
    requires m > 0
    ensures SumTerms(terms, s) == Eval(LowTerms(terms, m), s) + m * Eval(HighTerms(terms, m), s)
    decreases |terms|
  {
    hide Eval, Mentions, Canonical, Below;
    if terms != [] {
      LowHighAt(terms[1..], m, s);
      LowHighHead(terms, m, s);
      hide LowTerms, HighTerms;
      var c := terms[0].coeff;
      LowHighStep(c, m, c / m, c % m, s(terms[0].v), Eval(LowTerms(terms[1..], m), s),
        Eval(HighTerms(terms[1..], m), s));
    } else {
      ConstEval(Const(0), s);
    }
  }

  lemma LowHighHead(terms: seq<Term>, m: nat, s: Assignment)
    requires m > 0 && terms != []
    ensures Eval(LowTerms(terms, m), s) == terms[0].coeff % m * s(terms[0].v) + Eval(LowTerms(terms[1..], m), s)
    ensures Eval(HighTerms(terms, m), s) == terms[0].coeff / m * s(terms[0].v) + Eval(HighTerms(terms[1..], m), s)
  {
    hide Eval, Mentions, Canonical, Below, SumTerms;
    var t := terms[0];
    HeadEval(t.v, t.coeff % m, LowTerms(terms[1..], m), s);
    HeadEval(t.v, t.coeff / m, HighTerms(terms[1..], m), s);
  }

  lemma HeadEval(v: nat, k: int, x: Lc, s: Assignment)
    ensures Eval(Add(Scale(Var(v), k), x), s) == k * s(v) + Eval(x, s)
  {
    hide *;
    var head := Scale(Var(v), k);
    assert Eval(head, s) == k * Eval(Var(v), s);
    assert Eval(Var(v), s) == s(v);
  }

  lemma {:induction false} LowHighBelow(terms: seq<Term>, m: nat, n: nat)
    requires m > 0 && forall i :: 0 <= i < |terms| ==> terms[i].v < n
    ensures Below(LowTerms(terms, m), n) && Below(HighTerms(terms, m), n)
    decreases |terms|
  {
    hide Eval, Mentions, Canonical;
    if terms != [] {
      LowHighBelow(terms[1..], m, n);
    }
  }

  lemma LowHigh(terms: seq<Term>, m: nat, n: nat)
    requires m > 0 && forall i :: 0 <= i < |terms| ==> terms[i].v < n
    ensures forall s: Assignment :: SumTerms(terms, s) == Eval(LowTerms(terms, m), s) + m * Eval(HighTerms(terms, m), s)
    ensures Below(LowTerms(terms, m), n) && Below(HighTerms(terms, m), n)
  {
    hide Eval, LowTerms, HighTerms;
    LowHighBelow(terms, m, n);
    forall s: Assignment
      ensures SumTerms(terms, s) == Eval(LowTerms(terms, m), s) + m * Eval(HighTerms(terms, m), s)
    {
      LowHighAt(terms, m, s);
    }
  }

  lemma {:induction false} LowHighTotals(p: Prime, terms: seq<Term>, m: nat, s: Assignment)
    requires m > 0 && NonNegative(terms)
    ensures 0 <= Total(p, LowTerms(terms, m), s) && 0 <= Total(p, HighTerms(terms, m), s)
    decreases |terms|
  {
    hide Eval, IsPrime, Mentions, Canonical, Below, Total, SumTerms, Residue;
    if terms != [] {
      var t := terms[0];
      assert NonNegative(terms[1..]) && t.coeff >= 0;
      LowHighTotals(p, terms[1..], m, s);
      DivNat(t.coeff, m);
      TotalStep(p, t.v, t.coeff % m, LowTerms(terms[1..], m), s);
      TotalStep(p, t.v, t.coeff / m, HighTerms(terms[1..], m), s);
    } else {
      TotalZero(p, s);
    }
  }

  lemma DivNat(c: nat, m: nat)
    requires m > 0
    ensures c / m >= 0 && c % m >= 0
  {
  }

  lemma TotalZero(p: Prime, s: Assignment)
    ensures Total(p, Const(0), s) == 0
  {
  }

  lemma TotalStep(p: Prime, v: nat, k: nat, x: Lc, s: Assignment)
    requires 0 <= Total(p, x, s)
    ensures 0 <= Total(p, Add(Scale(Var(v), k), x), s)
  {
    hide Eval, IsPrime, Mentions, Canonical, Below;
    ScaleBound(k, 0, Residue(p, s)(v));
  }

  lemma LowHighStep(c: int, m: nat, q: int, r: int, x: int, l: int, h: int)
    requires m > 0 && c == q * m + r
    ensures c * x + (l + m * h) == (r * x + l) + m * (q * x + h)
  {
    assert c * x == (q * m) * x + r * x;
    assert (q * m) * x == m * (q * x);
    assert m * (q * x + h) == m * (q * x) + m * h;
  }

  /** `x` as `low + 2^k·high` over the integers, read off its terms. */
  function SplitLc(f: Facts, x: Lc, k: nat, n: nat): Option<(Lc, Lc)>
    requires Ending(f) && Below(x, n)
  {
    if k >= 63 || !NonNegative(x.terms) || LcMax(f, x, n).None? || !IsI64(x.constant) || x.constant < 0 then None
    else
      var m := Pow2(k);
      LowHigh(x.terms, m, n);
      var (low, high) := (Add(Const(x.constant % m), LowTerms(x.terms, m)),
        Add(Const(x.constant / m), HighTerms(x.terms, m)));
      match LcMax(f, low, n)
      case Some(b) => if b < m then Some((low, high)) else None
      case None => None
  }

  /** Nothing with non-negative coefficients is split. */
  lemma {:induction false} NoSplit(f: Facts, x: Lc, n: nat)
    requires Ending(f) && NonNegative(x.terms) && n <= |x.terms|
    ensures SplitBelow(f, x, n).None?
  {
    if n > 0 {
      NoSplit(f, x, n - 1);
      NonzeroTerms(x.terms);
    }
  }

  /** The parts are the remainder and the quotient, in every solution. */
  lemma SplitLcSound(p: Prime, c: Circuit, f: Facts, x: Lc, k: nat, n: nat, s: Assignment)
    requires p > Pow2(253) && Indexed(c) && OkFacts(p, c, f) && Ending(f) && Below(x, n) && Meets(p, c, s)
    requires SplitLc(f, x, k, n).Some?
    ensures var (low, high) := SplitLc(f, x, k, n).value;
      && Below(low, n) && Below(high, n)
      && Value(p, low, s) == Value(p, x, s) % Pow2(k) && Value(p, high, s) == Value(p, x, s) / Pow2(k)
  {
    hide OkFacts, Meets, Pow2, IsPrime, Ending, LcMax, Eval, Total, Value;
    var (m, (low, high)) := (Pow2(k), SplitLc(f, x, k, n).value);
    Bound128(p);
    LowHigh(x.terms, m, n);
    NoSplit(f, x, |x.terms|);
    LcMaxSound(p, c, f, x, n, s);
    LcMaxSound(p, c, f, low, n, s);
    SplitTotals(p, x, m, low, high, n, s);
    TotalIsValue(p, high, s);
    TotalIsValue(p, low, s);
    ModUnique(Total(p, x, s), m, Total(p, high, s), Total(p, low, s));
  }

  lemma SplitTotals(p: Prime, x: Lc, m: nat, low: Lc, high: Lc, n: nat, s: Assignment)
    requires m > 0 && NonNegative(x.terms) && x.constant >= 0 && Below(x, n)
    requires low == Add(Const(x.constant % m), LowTerms(x.terms, m))
      && high == Add(Const(x.constant / m), HighTerms(x.terms, m))
    ensures var (a, l, h) := (Total(p, x, s), Total(p, low, s), Total(p, high, s));
      a == l + m * h && a == h * m + l && 0 <= l <= a && 0 <= h <= a
  {
    hide IsPrime, Mentions, Canonical, LowTerms, HighTerms, SumTerms;
    var t := Residue(p, s);
    LowHigh(x.terms, m, n);
    LowHighTotals(p, x.terms, m, s);
    var (l, h) := (Eval(LowTerms(x.terms, m), t), Eval(HighTerms(x.terms, m), t));
    TotalsAdd(x.constant, m, l, h);
    SmallHigh(x.constant % m + l, m, x.constant / m + h);
  }

  lemma TotalsAdd(c: int, m: nat, l: int, h: int)
    requires m > 0
    ensures c + (l + m * h) == (c % m + l) + m * (c / m + h)
  {
    assert c == m * (c / m) + c % m;
    assert m * (c / m + h) == m * (c / m) + m * h;
  }

  lemma SmallHigh(l: int, m: nat, h: int)
    requires m > 0 && l >= 0 && h >= 0
    ensures h <= l + m * h && l <= l + m * h
  {
    assert m * h >= h;
  }

  // ----- disjoint bits -----

  function TrailingZeros(c: nat): (k: nat)
    requires c > 0
  {
    if c % 2 == 1 then 0 else 1 + TrailingZeros(c / 2)
  }

  /** `k`, lowered to the zeros the coefficient `c` ends with. */
  function LowerTo(k: nat, c: int): Option<nat> {
    if !IsI64(c) || c < 0 then None
    else if c == 0 then Some(k)
    else var z := TrailingZeros(c); Some(if z < k then z else k)
  }

  function ZerosOf(terms: seq<Term>, k: nat): Option<nat>
    decreases |terms|
  {
    if terms == [] then Some(k)
    else match LowerTo(k, terms[0].coeff) case None => None case Some(j) => ZerosOf(terms[1..], j)
  }

  /** How many low bits of `x` are certainly zero, at most 63. */
  function Zeros63(x: Lc): Option<nat> {
    match LowerTo(63, x.constant) case None => None case Some(j) => ZerosOf(x.terms, j)
  }

  /** `hi` is a multiple of a power of two that `lo` is below. */
  predicate Fits(f: Facts, hi: Lc, lo: Lc, n: nat)
    requires Ending(f) && Below(hi, n) && Below(lo, n)
  {
    && !IsConst(hi) && LcMax(f, hi, n).Some?
    && match Zeros63(hi)
       case None => false
       case Some(k) => match LcMax(f, lo, n) case None => false case Some(m) => m < Pow2(k)
  }

  predicate Disjoint(f: Facts, a: Lc, b: Lc, n: nat)
    requires Ending(f) && Below(a, n) && Below(b, n)
  {
    Fits(f, a, b, n) || Fits(f, b, a, n)
  }

  lemma {:induction false} TrailingZerosDivide(c: nat, k: nat)
    requires c > 0 && k <= TrailingZeros(c)
    ensures Divides(Pow2(k), c)
  {
    if k > 0 {
      TrailingZerosDivide(c / 2, k - 1);
      var q := Quotient(c / 2, Pow2(k - 1));
      assert c == 2 * (c / 2) == q * Pow2(k);
      MultipleDivides(q, Pow2(k));
    }
  }

  lemma {:induction false} ZerosLower(terms: seq<Term>, k: nat)
    requires ZerosOf(terms, k).Some?
    ensures ZerosOf(terms, k).value <= k
    decreases |terms|
  {
    if terms != [] {
      ZerosLower(terms[1..], LowerTo(k, terms[0].coeff).value);
    }
  }

  lemma {:induction false} ZerosDivide(terms: seq<Term>, k: nat, s: Assignment, j: nat)
    requires ZerosOf(terms, k).Some? && j <= ZerosOf(terms, k).value
    ensures Divides(Pow2(j), SumTerms(terms, s))
    decreases |terms|
  {
    hide Pow2, TrailingZeros, IsI64;
    NoRemainder(Pow2(j));
    if terms != [] {
      hide Divides;
      var t := terms[0];
      var k' := LowerTo(k, t.coeff).value;
      ZerosDivide(terms[1..], k', s, j);
      ZerosLower(terms[1..], k');
      CoefficientDivides(t.coeff, k, j);
      SumDivides(t.coeff, s(t.v), SumTerms(terms[1..], s), Pow2(j));
    }
  }

  lemma CoefficientDivides(c: int, k: nat, j: nat)
    requires LowerTo(k, c).Some? && j <= LowerTo(k, c).value
    ensures Divides(Pow2(j), c)
  {
    if c != 0 {
      TrailingZerosDivide(c, j);
    }
  }

  lemma NoRemainder(w: nat)
    requires w > 0
    ensures Divides(w, 0)
  {
  }

  lemma SumDivides(c: int, x: int, y: int, w: nat)
    requires w > 0 && Divides(w, c) && Divides(w, y)
    ensures Divides(w, c * x + y)
  {
    var a := Quotient(c, w);
    var b := Quotient(y, w);
    assert c * x + y == (a * x + b) * w;
    MultipleDivides(a * x + b, w);
  }

  lemma {:induction false} NonNegativeIfZeros(terms: seq<Term>, k: nat)
    requires ZerosOf(terms, k).Some?
    ensures NonNegative(terms)
    decreases |terms|
  {
    if terms != [] {
      NonNegativeIfZeros(terms[1..], LowerTo(k, terms[0].coeff).value);
      assert forall i :: 1 <= i < |terms| ==> terms[i] == terms[1..][i - 1];
    }
  }

  lemma FitsSound(p: Prime, c: Circuit, f: Facts, hi: Lc, lo: Lc, n: nat, s: Assignment)
    requires p > Pow2(253) && Indexed(c) && OkFacts(p, c, f) && Ending(f) && Below(hi, n) && Below(lo, n)
      && Meets(p, c, s)
    requires Fits(f, hi, lo, n)
    ensures var k := Zeros63(hi).value; Value(p, lo, s) < Pow2(k) && Divides(Pow2(k), Value(p, hi, s))
  {
    hide OkFacts, Meets, Pow2, IsPrime, Ending, LcMax, Eval, SumTerms, Value;
    var k := Zeros63(hi).value;
    var j := LowerTo(63, hi.constant).value;
    NonNegativeIfZeros(hi.terms, j);
    NoSplit(f, hi, |hi.terms|);
    LcMaxSound(p, c, f, hi, n, s);
    LcMaxSound(p, c, f, lo, n, s);
    ZerosLower(hi.terms, j);
    CoefficientDivides(hi.constant, 63, k);
    ZerosDivide(hi.terms, j, Residue(p, s), k);
    FormDivides(p, hi, s, Pow2(k));
  }

  lemma FormDivides(p: Prime, x: Lc, s: Assignment, w: nat)
    requires w > 0 && Divides(w, x.constant) && Divides(w, SumTerms(x.terms, Residue(p, s)))
    ensures Divides(w, Total(p, x, s))
  {
    SumDivides(x.constant, 1, SumTerms(x.terms, Residue(p, s)), w);
  }

  lemma HalfMultiple(x: nat, w: nat)
    requires w > 0 && Divides(2 * w, x)
    ensures x % 2 == 0 && Divides(w, x / 2)
  {
    var q := Quotient(x, 2 * w);
    assert x == 2 * (q * w);
    MultipleDivides(q, w);
  }

  /** Numbers whose bits cannot overlap: their OR and XOR are their sum. */
  lemma {:induction false} DisjointBits(o: S.Bin, x: nat, y: nat, k: nat, n: nat)
    requires o == S.Bin.Or || o == S.Bin.Xor
    requires Divides(Pow2(k), x) && y < Pow2(k) && x < Pow2(n) && y < Pow2(n)
    ensures S.BitOp(o, x, y, n) == x + y && S.BitOp(o, y, x, n) == x + y
    decreases n
  {
    if n > 0 {
      if k == 0 {
        DisjointBits(o, x / 2, 0, 0, n - 1);
      } else {
        HalfMultiple(x, Pow2(k - 1));
        DisjointBits(o, x / 2, y / 2, k - 1, n - 1);
      }
    }
  }

  /** Where `Disjoint` says so, OR and XOR are the sum. */
  lemma DisjointSound(p: Prime, c: Circuit, f: Facts, a: Lc, b: Lc, n: nat, o: S.Bin, reg: nat, s: Assignment)
    requires p > Pow2(253) && Indexed(c) && OkFacts(p, c, f) && Ending(f) && Below(a, n) && Below(b, n)
      && Meets(p, c, s)
    requires Disjoint(f, a, b, n) && (o == S.Bin.Or || o == S.Bin.Xor) && Value(p, a, s) < Pow2(reg)
      && Value(p, b, s) < Pow2(reg)
    ensures S.BitOp(o, Value(p, a, s), Value(p, b, s), reg) == Value(p, a, s) + Value(p, b, s)
  {
    hide OkFacts, Meets, Pow2, IsPrime, Ending, LcMax, Eval, SumTerms, Value, S.BitOp, Zeros63;
    if Fits(f, a, b, n) {
      FitsSound(p, c, f, a, b, n, s);
      DisjointBits(o, Value(p, a, s), Value(p, b, s), Zeros63(a).value, reg);
    } else {
      FitsSound(p, c, f, b, a, n, s);
      DisjointBits(o, Value(p, b, s), Value(p, a, s), Zeros63(b).value, reg);
    }
  }

  // ----- decided comparisons -----

  function Range(f: Facts, x: Lc, n: nat): Option<(nat, nat)>
    requires Ending(f) && Below(x, n)
  {
    if IsConst(x) then if IsI64(x.constant) && x.constant >= 0 then Some((x.constant, x.constant)) else None
    else match LcMax(f, x, n) case None => None case Some(m) => Some((0, m))
  }

  /** An unsigned comparison the operands' bounds already decide. */
  function DecidedCmp(f: Facts, o: S.Cmp, a: Lc, b: Lc, n: nat): Option<bool>
    requires Ending(f) && Below(a, n) && Below(b, n)
  {
    match (Range(f, a, n), Range(f, b, n))
    case (Some((alo, ahi)), Some((blo, bhi))) =>
      var (lt, ge, gt, le) := (ahi < blo, alo >= bhi, alo > bhi, ahi <= blo);
      (match o
       case LtU => if lt then Some(true) else if ge then Some(false) else None
       case GeU => if ge then Some(true) else if lt then Some(false) else None
       case GtU => if gt then Some(true) else if le then Some(false) else None
       case LeU => if le then Some(true) else if gt then Some(false) else None
       case Eq => if lt || gt then Some(false) else None
       case Ne => if lt || gt then Some(true) else None
       case _ => None)
    case _ => None
  }

  lemma RangeSound(p: Prime, c: Circuit, f: Facts, x: Lc, n: nat, s: Assignment)
    requires p > Pow2(253) && Indexed(c) && OkFacts(p, c, f) && Ending(f) && Below(x, n) && Meets(p, c, s)
    requires Range(f, x, n).Some?
    ensures var (lo, hi) := Range(f, x, n).value; lo <= Value(p, x, s) <= hi
  {
    hide OkFacts, Meets, Pow2, IsPrime, LcMax, Value, Eval;
    if IsConst(x) {
      ConstValue(p, x, s);
    } else {
      LcMaxSound(p, c, f, x, n, s);
    }
  }

  lemma ConstValue(p: Prime, x: Lc, s: Assignment)
    requires p > Pow2(253) && IsConst(x) && IsI64(x.constant) && x.constant >= 0
    ensures Value(p, x, s) == x.constant
  {
    hide Pow2, IsPrime;
    SmallConstant(x.constant);
    Bound128(p);
    ConstEval(x, s);
    ModSmall(x.constant, p);
  }

  /** A decided comparison is never decided wrongly. */
  lemma DecidedCmpSound(p: Prime, c: Circuit, f: Facts, o: S.Cmp, a: Lc, b: Lc, n: nat, s: Assignment)
    requires p > Pow2(253) && Indexed(c) && OkFacts(p, c, f) && Ending(f) && Below(a, n) && Below(b, n)
      && Meets(p, c, s)
    requires DecidedCmp(f, o, a, b, n).Some?
    ensures DecidedCmp(f, o, a, b, n).value == S.CmpVal(o, Value(p, a, s), Value(p, b, s))
  {
    RangeSound(p, c, f, a, n, s);
    RangeSound(p, c, f, b, n, s);
  }
}
