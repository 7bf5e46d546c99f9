/** Bits as linear forms: recognising them in a sum, and putting them back together. */
module Recompose {
  import opened Words
  import opened Collections
  import opened Fields
  import opened Linear
  import opened Circuits
  import opened Bits

  /** `Σ 2^i·bits[i]` */
  function Weigh(bits: seq<Lc>, k: nat): Lc
    decreases |bits|
  {
    if bits == [] then Const(0) else Add(Scale(bits[0], Pow2(k)), Weigh(bits[1..], k + 1))
  }

  function Recomposed(bits: seq<Lc>): Lc {
    Weigh(bits, 0)
  }

  ghost predicate AllBelow(bits: seq<Lc>, n: nat) {
    forall i :: 0 <= i < |bits| ==> Below(bits[i], n)
  }

  lemma {:induction false} WeighBelow(bits: seq<Lc>, k: nat, n: nat)
    requires AllBelow(bits, n)
    ensures Below(Weigh(bits, k), n)
    decreases |bits|
  {
    if bits != [] {
      WeighBelow(bits[1..], k + 1, n);
    }
  }

  function ValuesOf(p: Prime, bits: seq<Lc>, s: Assignment): (v: seq<nat>)
    ensures |v| == |bits| && forall i :: 0 <= i < |v| ==> v[i] == Value(p, bits[i], s)
  {
    seq(|bits|, i requires 0 <= i < |bits| => Value(p, bits[i], s))
  }

  lemma {:induction false} WeighCong(p: Prime, bits: seq<Lc>, k: nat, s: Assignment)
    ensures Cong(p, Eval(Weigh(bits, k), s), Pow2(k) * BitSum(ValuesOf(p, bits, s)))
    decreases |bits|
  {
    hide Eval, IsPrime, Canonical, Mentions, Below;
    var v := ValuesOf(p, bits, s);
    if bits == [] {
      assert Eval(Const(0), s) == 0;
    } else {
      WeighCong(p, bits[1..], k + 1, s);
      assert v[1..] == ValuesOf(p, bits[1..], s);
      WeighStep(p, Pow2(k), Eval(bits[0], s), v[0], Eval(Weigh(bits[1..], k + 1), s), BitSum(v[1..]));
    }
  }

  lemma WeighStep(p: Prime, w: nat, x: int, v: nat, y: int, t: nat)
    requires v == x % p && Cong(p, y, (2 * w) * t)
    ensures Cong(p, w * x + y, w * (v + 2 * t))
  {
    CongMod(p, x);
    CongMul(p, w, w, x, v);
    CongAdd(p, w * x, w * v, y, (2 * w) * t);
    assert w * v + (2 * w) * t == w * (v + 2 * t);
  }

  ghost predicate BitsAt(p: Prime, bits: seq<Lc>, s: Assignment) {
    forall i :: 0 <= i < |bits| ==> Value(p, bits[i], s) <= 1
  }

  /** Recomposed bits are worth the number they spell. */
  lemma RecomposedValue(p: Prime, bits: seq<Lc>, s: Assignment)
    requires BitsAt(p, bits, s) && Pow2(|bits|) <= p
    ensures Value(p, Recomposed(bits), s) == BitSum(ValuesOf(p, bits, s)) < Pow2(|bits|)
  {
    hide Value, Eval, IsPrime, BitOf;
    var v := ValuesOf(p, bits, s);
    WeighCong(p, bits, 0, s);
    assert Pow2(0) * BitSum(v) == BitSum(v);
    BitSumBits(v);
    ModSmall(BitSum(v), p);
    ValueIs(p, Recomposed(bits), s);
  }

  /** A form that equals a sum of bits has them as its bits. */
  lemma SumOfBits(p: Prime, x: Lc, bits: seq<Lc>, s: Assignment)
    requires BitsAt(p, bits, s) && Pow2(|bits|) <= p && Cong(p, Eval(x, s), Eval(Recomposed(bits), s))
    ensures Value(p, x, s) < Pow2(|bits|) && AreBitsOf(p, bits, Value(p, x, s), s)
  {
    hide Eval, IsPrime, BitOf, Recomposed;
    RecomposedValue(p, bits, s);
    BitSumBits(ValuesOf(p, bits, s));
  }

  lemma SplitStep(b: nat, l: nat, w: nat, h: nat)
    ensures b + 2 * (l + w * h) == (b + 2 * l) + (2 * w) * h
  {
    assert 2 * (w * h) == (2 * w) * h;
  }

  lemma {:induction false} BitSumSplit(v: seq<nat>, k: nat)
    requires k <= |v|
    ensures BitSum(v) == BitSum(v[..k]) + Pow2(k) * BitSum(v[k..])
  {
    if k == 0 {
      assert v[..0] == [] && v[0..] == v;
    } else {
      BitSumSplit(v[1..], k - 1);
      assert v[..k][1..] == v[1..][..k - 1] && v[1..][k - 1..] == v[k..];
      SplitStep(v[0], BitSum(v[1..][..k - 1]), Pow2(k - 1), BitSum(v[k..]));
    }
  }

  lemma SplitMod(x: nat, l: nat, h: nat, w: nat)
    requires x == l + w * h && l < w
    ensures x % w == l && x / w == h
  {
    assert w * h == h * w;
    ModUnique(x, w, h, l);
  }

  lemma RecomposedHalf(p: Prime, x: nat, bits: seq<Lc>, i: nat, j: nat, s: Assignment)
    requires AreBitsOf(p, bits, x, s) && Pow2(|bits|) <= p && i <= j <= |bits|
    ensures BitsAt(p, bits[i..j], s) && Value(p, Recomposed(bits[i..j]), s) == BitSum(ValuesOf(p, bits, s)[i..j])
  {
    hide Value, Eval, IsPrime, Recomposed, Pow2, BitSum;
    assert ValuesOf(p, bits[i..j], s) == ValuesOf(p, bits, s)[i..j];
    Pow2Mono(j - i, |bits|);
    RecomposedValue(p, bits[i..j], s);
  }

  /** The bits from `k` on spell the quotient by `2^k`, those below it the remainder. */
  lemma RecomposedParts(p: Prime, x: nat, bits: seq<Lc>, k: nat, s: Assignment)
    requires AreBitsOf(p, bits, x, s) && x < Pow2(|bits|) && Pow2(|bits|) <= p && k <= |bits|
    ensures Value(p, Recomposed(bits[..k]), s) == x % Pow2(k) && Value(p, Recomposed(bits[k..]), s) == x / Pow2(k)
  {
    hide Value, Eval, IsPrime, Recomposed, Pow2, BitSum, BitOf;
    var v := ValuesOf(p, bits, s);
    assert BitSum(v) == x by {
      BitsOfSum(x, |bits|);
      assert v == BitsOf(x, |bits|);
    }
    BitSumSplit(v, k);
    RecomposedHalf(p, x, bits, 0, k, s);
    RecomposedHalf(p, x, bits, k, |bits|, s);
    assert bits[0..k] == bits[..k] && bits[k..|bits|] == bits[k..] && v[0..k] == v[..k] && v[k..|bits|] == v[k..];
    BitSumBits(v[..k]);
    SplitMod(x, BitSum(v[..k]), BitSum(v[k..]), Pow2(k));
  }

  // ----- recognising a sum of proven bits -----

  function SlotTerm(slot: Option<nat>): Lc {
    match slot case Some(v) => Var(v) case None => Const(0)
  }

  function SlotForms(slots: seq<Option<nat>>): (r: seq<Lc>)
    ensures |r| == |slots| && forall i :: 0 <= i < |r| ==> r[i] == SlotTerm(slots[i])
  {
    seq<Lc>(|slots|, i requires 0 <= i < |slots| => SlotTerm(slots[i]))
  }

  lemma {:induction false} FillSlot(slots: seq<Option<nat>>, i: nat, v: nat, k: nat, s: Assignment)
    requires i < |slots| && slots[i] == None
    ensures Eval(Weigh(SlotForms(slots[i := Some(v)]), k), s) == Eval(Weigh(SlotForms(slots), k),
      s) + Pow2(k + i) * s(v)
    decreases |slots|
  {
    hide Eval, Canonical, Mentions, Below;
    var (a, b) := (SlotForms(slots), SlotForms(slots[i := Some(v)]));
    if i == 0 {
      assert a[1..] == b[1..];
      assert Eval(a[0], s) == 0 && Eval(b[0], s) == s(v);
    } else {
      FillSlot(slots[1..], i - 1, v, k + 1, s);
      assert a[1..] == SlotForms(slots[1..]) && b[1..] == SlotForms(slots[1..][i - 1 := Some(v)]) && a[0] == b[0];
    }
  }

  lemma {:induction false} SumSnoc(terms: seq<Term>, n: nat, s: Assignment)
    requires n < |terms|
    ensures SumTerms(terms[..n + 1], s) == SumTerms(terms[..n], s) + terms[n].coeff * s(terms[n].v)
  {
    if n == 0 {
      assert terms[..1][1..] == [] && terms[..0] == [];
    } else {
      SumSnoc(terms[1..], n - 1, s);
      assert terms[..n + 1][1..] == terms[1..][..n] && terms[..n][1..] == terms[1..][..n - 1];
    }
  }

  /** Which power of two below `2^n` the coefficient is. */
  function PowerIndex(c: int, n: nat): (r: Option<nat>)
    ensures r.Some? ==> r.value < n && c == Pow2(r.value)
  {
    if n == 0 then None else match PowerIndex(c, n - 1) case Some(i) => Some(i) case None => if c == Pow2(n - 1)
      then Some(n - 1) else None
  }

  lemma {:induction false} NoSlots(n: nat, k: nat, s: Assignment)
    ensures Eval(Weigh(SlotForms(seq(n, i => None)), k), s) == 0
    decreases n
  {
    hide Eval, Canonical, Mentions, Below;
    var a := SlotForms(seq(n, i => None));
    if n > 0 {
      NoSlots(n - 1, k + 1, s);
      assert a[1..] == SlotForms(seq(n - 1, i => None));
      assert Eval(a[0], s) == 0;
    }
  }

  ghost function Filled(slots: seq<Option<nat>>): set<nat> {
    set i | 0 <= i < |slots| && slots[i].Some?
  }

  lemma AllFilled(slots: seq<Option<nat>>)
    requires |Filled(slots)| >= |slots|
    ensures forall i :: 0 <= i < |slots| ==> slots[i].Some?
  {
    var all := UpTo(|slots|);
    assert Filled(slots) <= all;
    SubsetSize(Filled(slots), all);
    forall i | 0 <= i < |slots|
      ensures slots[i].Some?
    {
      assert i in all;
    }
  }

  /** The filled slots weigh what `terms` do. */
  ghost predicate Spelled(slots: seq<Option<nat>>, terms: seq<Term>) {
    forall s: Assignment :: Eval(Recomposed(SlotForms(slots)), s) == SumTerms(terms, s)
  }

  lemma SpelledMore(slots: seq<Option<nat>>, terms: seq<Term>, k: nat, i: nat)
    requires k < |terms| && i < |slots| && slots[i] == None && terms[k].coeff == Pow2(i) && Spelled(slots, terms[..k])
    ensures Spelled(slots[i := Some(terms[k].v)], terms[..k + 1])
  {
    hide Eval;
    var more := slots[i := Some(terms[k].v)];
    forall s: Assignment
      ensures Eval(Recomposed(SlotForms(more)), s) == SumTerms(terms[..k + 1], s)
    {
      FillSlot(slots, i, terms[k].v, 0, s);
      SumSnoc(terms, k, s);
      assert Eval(Recomposed(SlotForms(slots)), s) == SumTerms(terms[..k], s);
    }
  }

  lemma NothingSpelled(n: nat, terms: seq<Term>)
    ensures Spelled(seq(n, i => None), terms[..0])
  {
    forall s: Assignment
      ensures Eval(Recomposed(SlotForms(seq(n, i => None))), s) == SumTerms(terms[..0], s)
    {
      NoSlots(n, 0, s);
    }
  }

  lemma MoreFilled(slots: seq<Option<nat>>, i: nat, v: nat)
    requires i < |slots| && slots[i] == None
    ensures |Filled(slots[i := Some(v)])| == |Filled(slots)| + 1
  {
    assert Filled(slots[i := Some(v)]) == Filled(slots) + {i};
  }

  /** `x` is a sum of `n` proven bits, times distinct powers of two below `2^n`. */
  ghost predicate SpellsBits(x: Lc, n: nat, booleans: set<nat>) {
    && n > 0 && x.constant == 0 && |x.terms| == n
    && (forall k :: 0 <= k < n ==> x.terms[k].v in booleans && PowerIndex(x.terms[k].coeff, n).Some?)
    && forall j, k :: 0 <= j < k < n ==> x.terms[j].coeff != x.terms[k].coeff
  }

  /** Slot `i` holds the variable of one of the first `k` terms, the one with coefficient `2^i`. */
  ghost predicate SlotFrom(x: Lc, k: nat, i: nat, v: nat) {
    exists j :: 0 <= j < k && j < |x.terms| && x.terms[j] == Term(Pow2(i), v)
  }

  /** The slots hold the first `k` terms' variables. */
  ghost predicate SlotsHold(x: Lc, k: nat, slots: seq<Option<nat>>) {
    && (forall i :: 0 <= i < |slots| && slots[i].Some? ==> SlotFrom(x, k, i, slots[i].value))
    && forall j :: 0 <= j < k && j < |x.terms| ==>
         var i := PowerIndex(x.terms[j].coeff, |slots|); i.Some? && slots[i.value] == Some(x.terms[j].v)
  }

  lemma SlotsMore(x: Lc, k: nat, slots: seq<Option<nat>>, i: nat)
    requires k < |x.terms| && SlotsHold(x, k, slots) && i < |slots| && slots[i] == None
    requires PowerIndex(x.terms[k].coeff, |slots|) == Some(i)
    ensures SlotsHold(x, k + 1, slots[i := Some(x.terms[k].v)])
    ensures forall j :: 0 <= j < k ==> x.terms[j].coeff != x.terms[k].coeff
  {
    var more := slots[i := Some(x.terms[k].v)];
    forall m | 0 <= m < |more| && more[m].Some?
      ensures SlotFrom(x, k + 1, m, more[m].value)
    {
      if m == i {
        assert x.terms[k] == Term(Pow2(m), more[m].value);
      } else {
        assert SlotFrom(x, k, m, slots[m].value);
      }
    }
  }

  lemma {:induction false} TermsApart(terms: seq<Term>, j: nat, k: nat)
    requires Canonical(terms) && j < k < |terms|
    ensures terms[j].v != terms[k].v
  {
    if j == 0 {
      assert terms[1..][k - 1] == terms[k];
    } else {
      TermsApart(terms[1..], j - 1, k - 1);
    }
  }

  lemma {:induction false} Pow2Apart(i: nat, j: nat)
    requires i < j
    ensures Pow2(i) < Pow2(j)
  {
    Pow2Mono(i, j - 1);
  }

  /** Different slots hold different variables. */
  lemma SlotsApart(x: Lc, k: nat, slots: seq<Option<nat>>)
    requires SlotsHold(x, k, slots)
    ensures forall i, j :: 0 <= i < j < |slots| && slots[i].Some? && slots[j].Some? ==> slots[i] != slots[j]
  {
    hide SlotFrom, PowerIndex, Canonical;
    forall i, j | 0 <= i < j < |slots| && slots[i].Some? && slots[j].Some?
      ensures slots[i] != slots[j]
    {
      SlotsDiffer(x, k, i, slots[i].value, j, slots[j].value);
    }
  }

  lemma SlotsDiffer(x: Lc, k: nat, i: nat, v: nat, j: nat, w: nat)
    requires i < j && SlotFrom(x, k, i, v) && SlotFrom(x, k, j, w)
    ensures v != w
  {
    var a :| 0 <= a < k && a < |x.terms| && x.terms[a] == Term(Pow2(i), v);
    var b :| 0 <= b < k && b < |x.terms| && x.terms[b] == Term(Pow2(j), w);
    Pow2Apart(i, j);
    hide Canonical, Pow2;
    if a < b {
      TermsApart(x.terms, a, b);
    } else if b < a {
      TermsApart(x.terms, b, a);
    }
  }

  /** The variables `vᵢ` if `x` is `Σ 2^i·vᵢ` of `n` distinct proven bits, and only then. */
  method BitSumMatch(x: Lc, n: nat, booleans: set<nat>) returns (vars: Option<seq<nat>>)
    ensures vars.Some? <==> SpellsBits(x, n, booleans)
    ensures vars.Some? ==> |vars.value| == n && forall i :: 0 <= i < n ==>
      vars.value[i] in booleans && Mentions(x, vars.value[i])
    ensures vars.Some? ==> forall i, j :: 0 <= i < j < n ==> vars.value[i] != vars.value[j]
    ensures vars.Some? ==> forall s: Assignment :: Eval(x, s) == Eval(Recomposed(VarForms(vars.value)), s)
  {
    hide Eval, Canonical, Spelled, Filled, Mentions, SlotsHold, SlotFrom, PowerIndex, Pow2;
    if n == 0 || x.constant != 0 || |x.terms| != n {
      return None;
    }
    var slots: seq<Option<nat>> := seq(n, i => None);
    NothingSpelled(n, x.terms);
    NoneFilled(n);
    assert SlotsHold(x, 0, slots) by { NothingHeld(x, n); }
    var k := 0;
    while k < n
      invariant 0 <= k <= n && |slots| == n && |Filled(slots)| == k && Spelled(slots, x.terms[..k])
        && SlotsHold(x, k, slots)
      invariant forall i :: 0 <= i < n && slots[i].Some? ==> slots[i].value in booleans && Mentions(x, slots[i].value)
      invariant forall j :: 0 <= j < k ==> x.terms[j].v in booleans && PowerIndex(x.terms[j].coeff, n).Some?
      invariant forall i, j :: 0 <= i < j < k ==> x.terms[i].coeff != x.terms[j].coeff
    {
      var t := x.terms[k];
      var i := PowerIndex(t.coeff, n);
      if i.None? || slots[i.value].Some? || t.v !in booleans {
        if i.Some? && slots[i.value].Some? {
          HeldBefore(x, k, slots, i.value);
        }
        return None;
      }
      MentionsTerm(x, k);
      SpelledMore(slots, x.terms, k, i.value);
      MoreFilled(slots, i.value, t.v);
      SlotsMore(x, k, slots, i.value);
      slots := slots[i.value := Some(t.v)];
      k := k + 1;
    }
    AllFilled(slots);
    SlotsApart(x, n, slots);
    vars := Some(seq(n, i requires 0 <= i < n => slots[i].value));
    SpelledAll(x, slots, vars.value);
  }

  lemma NothingHeld(x: Lc, n: nat)
    ensures SlotsHold(x, 0, seq(n, i => None))
  {
  }

  /** A filled slot's coefficient came before. */
  lemma HeldBefore(x: Lc, k: nat, slots: seq<Option<nat>>, i: nat)
    requires SlotsHold(x, k, slots) && k < |x.terms| && i < |slots| && slots[i].Some? && x.terms[k].coeff == Pow2(i)
    ensures exists j :: 0 <= j < k && x.terms[j].coeff == x.terms[k].coeff
  {
    assert SlotFrom(x, k, i, slots[i].value);
  }

  function VarForms(vars: seq<nat>): (r: seq<Lc>)
    ensures |r| == |vars| && forall i :: 0 <= i < |r| ==> r[i] == Var(vars[i])
  {
    seq<Lc>(|vars|, i requires 0 <= i < |vars| => Var(vars[i]))
  }

  lemma NoneFilled(n: nat)
    ensures |Filled(seq(n, i => None))| == 0
  {
    assert Filled(seq(n, i => None)) == {};
  }

  lemma MentionsTerm(x: Lc, k: nat)
    requires k < |x.terms|
    ensures Mentions(x, x.terms[k].v)
  {
  }

  lemma SpelledAll(x: Lc, slots: seq<Option<nat>>, vars: seq<nat>)
    requires |slots| == |vars| == |x.terms| && x.constant == 0 && Spelled(slots, x.terms[..|x.terms|])
    requires forall i :: 0 <= i < |vars| ==> slots[i] == Some(vars[i])
    ensures forall s: Assignment :: Eval(x, s) == Eval(Recomposed(VarForms(vars)), s)
  {
    assert x.terms[..|x.terms|] == x.terms;
    assert SlotForms(slots) == VarForms(vars);
    forall s: Assignment
      ensures Eval(x, s) == Eval(Recomposed(VarForms(vars)), s)
    {
      assert Eval(Recomposed(SlotForms(slots)), s) == SumTerms(x.terms, s);
    }
  }
}
