/**
 * When a gadget call is its template with combinations for inputs, and when it is that with constant inputs folded:
 * hints with affine values dropped, their variables replaced everywhere, rows that always hold dropped.
 */
module Folding {
  import opened Words
  import opened Fields
  import opened Linear
  import opened Reduction
  import opened Gadgets
  import Renaming

  function Update(s: Assignment, v: nat, x: int): Assignment {
    (u: nat) => if u == v then x else s(u)
  }

  ghost predicate AllReduced(p: Prime, t: Gadget) {
    forall x :: Has(t, x) ==> Reduced(p, x)
  }

  // ----- replacing a variable -----

  /** The coefficient of the first term with variable `v`. */
  function CoeffOf(ts: seq<Term>, v: nat): Option<int> {
    if ts == [] then None else if ts[0].v == v then Some(ts[0].coeff) else CoeffOf(ts[1..], v)
  }

  function Without(ts: seq<Term>, v: nat): seq<Term> {
    if ts == [] then [] else if ts[0].v == v then Without(ts[1..], v) else [ts[0]] + Without(ts[1..], v)
  }

  function ReplaceLc(p: Prime, l: Form, v: nat, e: Form): Form {
    match CoeffOf(l.terms, v)
    case None => l
    case Some(c) => CanonicalLc(p, Plus(Form(l.constant, Without(l.terms, v)), ScaleBy(e, c)))
  }

  function Replacer(p: Prime, v: nat, e: Form): Map {
    (l: Form) => ReplaceLc(p, l, v, e)
  }

  function Same(): nat -> nat {
    (v: nat) => v
  }

  /** `t` with variable `v` replaced by `e` in every form. */
  function Replaced(p: Prime, t: Gadget, v: nat, e: Form): Gadget {
    MapGadget(t, Same(), Replacer(p, v, e))
  }

  lemma {:induction false} WithoutSum(ts: seq<Term>, v: nat, s: Assignment, x: int)
    requires Rising(ts)
    ensures SumTerms(ts, Update(s, v, x))
         == (if CoeffOf(ts, v).Some? then CoeffOf(ts, v).value * x else 0) + SumTerms(Without(ts, v), s)
  {
    if ts != [] {
      var rest := ts[1..];
      WithoutSum(rest, v, s, x);
      if ts[0].v == v {
        RisingFirst(ts);
        NotThere(rest, v);
      } else {
        assert ([ts[0]] + Without(rest, v))[1..] == Without(rest, v);
      }
    }
  }

  lemma {:induction false} NotThere(ts: seq<Term>, v: nat)
    requires forall t :: t in ts ==> v < t.v
    ensures CoeffOf(ts, v) == None
  {
    if ts != [] {
      assert ts[0] in ts;
      NotThere(ts[1..], v);
    }
  }

  /** Replacing `v` by `e` is reading the form where `v` is worth `e`. */
  lemma ReplaceSum(p: Prime, l: Form, v: nat, e: Form, s: Assignment)
    requires Reduced(p, l)
    ensures Cong(p, Sum(ReplaceLc(p, l, v, e), s), Sum(l, Update(s, v, Sum(e, s)))) && Reduced(p, ReplaceLc(p, l, v, e))
  {
    WithoutSum(l.terms, v, s, Sum(e, s));
    match CoeffOf(l.terms, v)
    case None =>
      NoneWithout(l.terms, v);
    case Some(c) =>
      var rest := Form(l.constant, Without(l.terms, v));
      PlusScaled(rest, e, c, s);
      CanonicalSum(p, Plus(rest, ScaleBy(e, c)), s);
      CanonicalReduced(p, Plus(rest, ScaleBy(e, c)));
  }

  lemma {:induction false} NoneWithout(ts: seq<Term>, v: nat)
    requires CoeffOf(ts, v) == None
    ensures Without(ts, v) == ts
  {
    if ts != [] {
      NoneWithout(ts[1..], v);
    }
  }

  /** A form is worth the same where only `v` changed, to a congruent value. */
  lemma {:induction false} SameWhere(p: Prime, ts: seq<Term>, s: Assignment, v: nat, x: int)
    requires Cong(p, s(v), x)
    ensures Cong(p, SumTerms(ts, Update(s, v, x)), SumTerms(ts, s))
  {
    if ts != [] {
      SameWhere(p, ts[1..], s, v, x);
      var u := Update(s, v, x);
      CongMul(p, ts[0].coeff, ts[0].coeff, u(ts[0].v), s(ts[0].v));
      CongAdd(p, ts[0].coeff * u(ts[0].v), ts[0].coeff * s(ts[0].v), SumTerms(ts[1..], u), SumTerms(ts[1..], s));
    }
  }

  lemma SumWhere(p: Prime, l: Form, s: Assignment, v: nat, x: int)
    requires Cong(p, s(v), x)
    ensures Cong(p, Sum(l, Update(s, v, x)), Sum(l, s))
  {
    SameWhere(p, l.terms, s, v, x);
    CongAdd(p, l.constant, l.constant, SumTerms(l.terms, Update(s, v, x)), SumTerms(l.terms, s));
  }

  /** A replaced template, where the variable is worth its replacement. */
  lemma ReplacedMeets(p: Prime, t: Gadget, v: nat, e: Form, s: Assignment)
    requires AllReduced(p, t)
    ensures var (r, u) := (Replaced(p, t, v, e), Update(s, v, Sum(e, s)));
      && (RowsHold(p, r.rows, s) <==> RowsHold(p, t.rows, u))
      && SameValues(p, r.inputs, s, t.inputs, u) && SameValues(p, r.outputs, s, t.outputs, u)
  {
    var u := Update(s, v, Sum(e, s));
    forall x | Has(t, x)
      ensures Cong(p, Sum(Replacer(p, v, e)(x), s), Sum(x, u))
    {
      ReplaceSum(p, x, v, e, s);
    }
    CarriesMeaning(p, t, Same(), Replacer(p, v, e), s, u);
  }

  /** Where the fold holds, replacing changes nothing. */
  lemma ReplacedWhere(p: Prime, t: Gadget, v: nat, e: Form, s: Assignment)
    requires AllReduced(p, t) && FoldHolds(p, (v, e), s)
    ensures var r := Replaced(p, t, v, e);
      && (RowsHold(p, r.rows, s) <==> RowsHold(p, t.rows, s))
        && (AllHinted(p, r.hints, s) <==> AllHinted(p, t.hints, s))
      && SameValues(p, r.inputs, s, t.inputs, s) && SameValues(p, r.outputs, s, t.outputs, s)
  {
    forall x | Has(t, x)
      ensures Cong(p, Sum(Replacer(p, v, e)(x), s), Sum(x, s))
    {
      ReplaceSum(p, x, v, e, s);
      SumWhere(p, x, s, v, Sum(e, s));
    }
    CarriesMeaning(p, t, Same(), Replacer(p, v, e), s, s);
    CarriesHints(p, t, Same(), Replacer(p, v, e), s, s);
  }

  /** A form of a mapped template is the mapping of a form. */
  lemma HasMapped(t: Gadget, g: nat -> nat, f: Map, x: Form)
    requires Has(MapGadget(t, g, f), x)
    ensures exists y :: Has(t, y) && x == f(y)
  {
    var r := MapGadget(t, g, f);
    if x in r.inputs {
      var i :| 0 <= i < |r.inputs| && r.inputs[i] == x;
      assert Has(t, t.inputs[i]);
    } else if x in r.outputs {
      var i :| 0 <= i < |r.outputs| && r.outputs[i] == x;
      assert Has(t, t.outputs[i]);
    } else if i :| 0 <= i < |r.rows| && InRow(r.rows[i], x) {
      var q := t.rows[i];
      assert InRow(q, q.a) && InRow(q, q.b) && InRow(q, q.c);
      assert Has(t, q.a) && Has(t, q.b) && Has(t, q.c);
    } else {
      var i :| 0 <= i < |r.hints| && x in Ins(r.hints[i]);
      HintMapped(t.hints[i], g, f, x);
      var y :| y in Ins(t.hints[i]) && x == f(y);
      assert Has(t, y);
    }
  }

  lemma HintMapped(h: Hint, g: nat -> nat, f: Map, x: Form)
    requires x in Ins(MapHint(h, g, f))
    ensures exists y :: y in Ins(h) && x == f(y)
  {
    var (xs, ys) := (Ins(MapHint(h, g, f)), Ins(h));
    var i :| 0 <= i < |xs| && xs[i] == x;
    assert ys[i] in ys && x == f(ys[i]);
  }

  lemma ReplacedReduced(p: Prime, t: Gadget, v: nat, e: Form)
    requires AllReduced(p, t)
    ensures AllReduced(p, Replaced(p, t, v, e))
  {
    forall x | Has(Replaced(p, t, v, e), x)
      ensures Reduced(p, x)
    {
      HasMapped(t, Same(), Replacer(p, v, e), x);
      var y :| Has(t, y) && x == Replacer(p, v, e)(y);
      ReplaceSum(p, y, v, e, Zeros());
    }
  }

  // ----- many folds -----

  function ReplaceAll(p: Prime, t: Gadget, folds: seq<(nat, Form)>): (r: Gadget)
    ensures |r.hints| == |t.hints|
  {
    if folds == [] then t
    else
      var (v, e) := folds[|folds| - 1];
      Replaced(p, ReplaceAll(p, t, folds[..|folds| - 1]), v, e)
  }

  /** The assignment of all variables, from one of those left: folded variables, last first, get their combination. */
  function Lift(folds: seq<(nat, Form)>, s: Assignment): Assignment {
    if folds == [] then s
    else
      var (v, e) := folds[|folds| - 1];
      Lift(folds[..|folds| - 1], Update(s, v, Sum(e, s)))
  }

  /** `t` is `whole` with `folds` folded away: the same constraints on the variables left, and no more for whoever
      computes variables as hinted. */
  ghost predicate Folded(p: Prime, whole: Gadget, t: Gadget, folds: seq<(nat, Form)>) {
    && AllReduced(p, t)
    && (forall s: Assignment :: FoldedAt(p, whole, t, folds, s))
    && (forall s: Assignment :: AllHinted(p, whole.hints, s) ==> HonestAt(p, whole, t, s))
  }

  ghost predicate FoldedAt(p: Prime, whole: Gadget, t: Gadget, folds: seq<(nat, Form)>, s: Assignment) {
    && (RowsHold(p, t.rows, s) <==> RowsHold(p, whole.rows, Lift(folds, s)))
    && SameValues(p, t.inputs, s, whole.inputs, Lift(folds, s))
      && SameValues(p, t.outputs, s, whole.outputs, Lift(folds, s))
  }

  ghost predicate HonestAt(p: Prime, whole: Gadget, t: Gadget, s: Assignment) {
    && AllHinted(p, t.hints, s) && (RowsHold(p, t.rows, s) <==> RowsHold(p, whole.rows, s))
    && SameValues(p, t.inputs, s, whole.inputs, s) && SameValues(p, t.outputs, s, whole.outputs, s)
  }

  lemma SameValuesTrans(p: Prime, xs: seq<Form>, s: Assignment, ys: seq<Form>, u: Assignment, zs: seq<Form>,
                        w: Assignment)
    requires SameValues(p, xs, s, ys, u) && SameValues(p, ys, u, zs, w)
    ensures SameValues(p, xs, s, zs, w)
  {
  }

  /** One more fold, that holds for whoever computes variables as hinted. */
  lemma FoldOne(p: Prime, whole: Gadget, t: Gadget, folds: seq<(nat, Form)>, v: nat, e: Form)
    requires Folded(p, whole, t, folds)
    requires forall s: Assignment :: AllHinted(p, whole.hints, s) ==> FoldHolds(p, (v, e), s)
    ensures Folded(p, whole, Replaced(p, t, v, e), folds + [(v, e)])
  {
    var (r, more) := (Replaced(p, t, v, e), folds + [(v, e)]);
    assert more[..|folds|] == folds;
    ReplacedReduced(p, t, v, e);
    forall s: Assignment
      ensures FoldedAt(p, whole, r, more, s)
    {
      var u := Update(s, v, Sum(e, s));
      ReplacedMeets(p, t, v, e, s);
      assert FoldedAt(p, whole, t, folds, u);
      SameValuesTrans(p, r.inputs, s, t.inputs, u, whole.inputs, Lift(folds, u));
      SameValuesTrans(p, r.outputs, s, t.outputs, u, whole.outputs, Lift(folds, u));
    }
    forall s: Assignment | AllHinted(p, whole.hints, s)
      ensures HonestAt(p, whole, r, s)
    {
      assert HonestAt(p, whole, t, s);
      ReplacedWhere(p, t, v, e, s);
      SameValuesTrans(p, r.inputs, s, t.inputs, s, whole.inputs, s);
      SameValuesTrans(p, r.outputs, s, t.outputs, s, whole.outputs, s);
    }
  }

  /** Dropping a hint. */
  lemma DropHint(p: Prime, whole: Gadget, t: Gadget, folds: seq<(nat, Form)>, i: nat)
    requires Folded(p, whole, t, folds) && i < |t.hints|
    ensures Folded(p, whole, t.(hints := t.hints[..i] + t.hints[i + 1..]), folds)
    ensures forall s: Assignment :: AllHinted(p, whole.hints, s) ==> HintHolds(p, t.hints[i], s)
    ensures forall x :: x in Ins(t.hints[i]) ==> Reduced(p, x)
  {
    var d := t.(hints := t.hints[..i] + t.hints[i + 1..]);
    forall x | Has(d, x)
      ensures Reduced(p, x)
    {
      if j :| 0 <= j < |d.hints| && x in Ins(d.hints[j]) {
        assert d.hints[j] == t.hints[if j < i then j else j + 1];
      }
      assert Has(t, x);
    }
    forall s: Assignment
      ensures FoldedAt(p, whole, d, folds, s)
    {
      assert FoldedAt(p, whole, t, folds, s);
    }
    forall s: Assignment | AllHinted(p, whole.hints, s)
      ensures HonestAt(p, whole, d, s) && HintHolds(p, t.hints[i], s)
    {
      assert HonestAt(p, whole, t, s);
      assert forall j :: 0 <= j < |d.hints| ==> d.hints[j] == t.hints[if j < i then j else j + 1];
    }
    forall x | x in Ins(t.hints[i])
      ensures Reduced(p, x)
    {
      assert Has(t, x);
    }
  }

  // ----- dropping rows -----

  /** The rows that do not always hold. */
  function Kept(p: Prime, rows: seq<GadgetRow>): seq<GadgetRow> {
    if rows == [] then []
    else
      var (init, r) := (Kept(p, rows[..|rows| - 1]), rows[|rows| - 1]);
      if RowValidity(p, r) == Always then init else init + [r]
  }

  lemma {:induction false} KeptMeets(p: Prime, rows: seq<GadgetRow>, s: Assignment)
    ensures RowsHold(p, Kept(p, rows), s) <==> RowsHold(p, rows, s)
    decreases |rows|
  {
    if rows != [] {
      var (init, r) := (rows[..|rows| - 1], rows[|rows| - 1]);
      KeptMeets(p, init, s);
      RowValidityHolds(p, r, s);
      MeetsSnoc(p, init, r, s);
      MeetsSnoc(p, Kept(p, init), r, s);
      assert rows == init + [r];
    }
  }

  lemma MeetsSnoc(p: Prime, rows: seq<GadgetRow>, r: GadgetRow, s: Assignment)
    ensures RowsHold(p, rows + [r], s) <==> RowsHold(p, rows, s) && RowHolds(p, r, s)
  {
    assert (rows + [r])[|rows|] == r;
    if RowsHold(p, rows + [r], s) {
      forall i | 0 <= i < |rows|
        ensures RowHolds(p, rows[i], s)
      {
        assert (rows + [r])[i] == rows[i];
      }
    }
  }

  lemma {:induction false} KeptFrom(p: Prime, rows: seq<GadgetRow>)
    ensures forall r :: r in Kept(p, rows) ==> r in rows
    decreases |rows|
  {
    if rows != [] {
      KeptFrom(p, rows[..|rows| - 1]);
    }
  }

  lemma KeepRows(p: Prime, whole: Gadget, t: Gadget, folds: seq<(nat, Form)>)
    requires Folded(p, whole, t, folds)
    ensures Folded(p, whole, t.(rows := Kept(p, t.rows)), folds)
  {
    var d := t.(rows := Kept(p, t.rows));
    forall x | Has(d, x)
      ensures Reduced(p, x)
    {
      if i :| 0 <= i < |d.rows| && InRow(d.rows[i], x) {
        KeptFrom(p, t.rows);
        assert d.rows[i] in Kept(p, t.rows);
        var j :| 0 <= j < |t.rows| && t.rows[j] == d.rows[i];
        assert InRow(t.rows[j], x);
      }
      assert Has(t, x);
    }
    forall s: Assignment
      ensures FoldedAt(p, whole, d, folds, s) && (AllHinted(p, whole.hints, s) ==> HonestAt(p, whole, d, s))
    {
      KeptMeets(p, t.rows, s);
      assert FoldedAt(p, whole, t, folds, s);
      if AllHinted(p, whole.hints, s) {
        assert HonestAt(p, whole, t, s);
      }
    }
  }

  // ----- the call's inputs for the plugs -----

  /** Each plug's combination over the call's variables. */
  type Plugging = map<nat, Form>

  function PlugTerm(t: Term, sub: Plugging, shift: nat -> nat): Form {
    if t.v in sub then ScaleBy(sub[t.v], t.coeff) else Form(0, [Term(t.coeff, shift(t.v))])
  }

  function PlugTerms(ts: seq<Term>, sub: Plugging, shift: nat -> nat): Form {
    if ts == [] then Form(0, []) else Plus(PlugTerm(ts[0], sub, shift), PlugTerms(ts[1..], sub, shift))
  }

  function PlugLc(l: Form, sub: Plugging, shift: nat -> nat): Form {
    Plus(Form(l.constant, []), PlugTerms(l.terms, sub, shift))
  }

  /** A template's own variables come after the call's plugs. */
  function Shift(plugs: nat, to: nat): nat -> nat {
    (v: nat) => if v < plugs then v else v - plugs + to
  }

  function Plugger(sub: Plugging, plugs: nat, to: nat): Map {
    (l: Form) => PlugLc(l, sub, Shift(plugs, to))
  }

  function Substituted(t: Gadget, sub: Plugging, plugs: nat): Gadget {
    MapGadget(t, Shift(t.plugs, plugs), Plugger(sub, t.plugs, plugs)).(plugs := plugs)
  }

  /** The template's variables, from the call's: plugs get their combination's value. */
  function Plugged(t: Gadget, sub: Plugging, plugs: nat, s: Assignment): Assignment {
    (v: nat) => if v in sub then Sum(sub[v], s) else s(Shift(t.plugs, plugs)(v))
  }

  lemma {:induction false} PlugTermsSum(ts: seq<Term>, t: Gadget, sub: Plugging, plugs: nat, s: Assignment)
    ensures Sum(PlugTerms(ts, sub, Shift(t.plugs, plugs)), s) == SumTerms(ts, Plugged(t, sub, plugs, s))
  {
    if ts != [] {
      var (head, tail, shift) := (ts[0], PlugTerms(ts[1..], sub, Shift(t.plugs, plugs)), Shift(t.plugs, plugs));
      PlugTermsSum(ts[1..], t, sub, plugs, s);
      PlusSum(PlugTerm(head, sub, shift), tail, s);
      if head.v in sub {
        ScaleSum(sub[head.v], head.coeff, s);
      } else {
        OneTerm(head.coeff, shift(head.v), s);
      }
    }
  }

  lemma PlusSum(x: Form, y: Form, s: Assignment)
    ensures Sum(Plus(x, y), s) == Sum(x, s) + Sum(y, s)
  {
    SumAppend(x.terms, y.terms, s);
  }

  lemma ScaleSum(x: Form, k: int, s: Assignment)
    ensures Sum(ScaleBy(x, k), s) == k * Sum(x, s)
  {
    SumScaled(x.terms, k, s);
    TimesSum(k, x.constant, SumTerms(x.terms, s));
  }

  lemma OneTerm(c: int, v: nat, s: Assignment)
    ensures Sum(Form(0, [Term(c, v)]), s) == c * s(v)
  {
    var ts := [Term(c, v)];
    assert ts[1..] == [];
    assert SumTerms(ts, s) == ts[0].coeff * s(ts[0].v) + SumTerms([], s);
  }

  lemma PlugLcSum(l: Form, t: Gadget, sub: Plugging, plugs: nat, s: Assignment)
    ensures Sum(PlugLc(l, sub, Shift(t.plugs, plugs)), s) == Sum(l, Plugged(t, sub, plugs, s))
  {
    PlugTermsSum(l.terms, t, sub, plugs, s);
    PlusSum(Form(l.constant, []), PlugTerms(l.terms, sub, Shift(t.plugs, plugs)), s);
  }

  function Canonizer(p: Prime): Map {
    (l: Form) => CanonicalLc(p, l)
  }

  function CanonicalGadget(p: Prime, t: Gadget): Gadget {
    MapGadget(t, Same(), Canonizer(p))
  }

  lemma CanonicalMeaning(p: Prime, t: Gadget, s: Assignment)
    ensures var r := CanonicalGadget(p, t);
      && (RowsHold(p, r.rows, s) <==> RowsHold(p, t.rows, s))
        && (AllHinted(p, r.hints, s) <==> AllHinted(p, t.hints, s))
      && SameValues(p, r.inputs, s, t.inputs, s) && SameValues(p, r.outputs, s, t.outputs, s)
  {
    forall x | Has(t, x)
      ensures Cong(p, Sum(Canonizer(p)(x), s), Sum(x, s))
    {
      CanonicalSum(p, x, s);
    }
    CarriesMeaning(p, t, Same(), Canonizer(p), s, s);
    CarriesHints(p, t, Same(), Canonizer(p), s, s);
  }

  lemma CanonicalAllReduced(p: Prime, t: Gadget)
    ensures AllReduced(p, CanonicalGadget(p, t))
  {
    forall x | Has(CanonicalGadget(p, t), x)
      ensures Reduced(p, x)
    {
      HasMapped(t, Same(), Canonizer(p), x);
      var y :| Has(t, y) && x == Canonizer(p)(y);
      CanonicalReduced(p, y);
    }
  }

  /** Hints define own variables, never a plug. */
  ghost predicate DefinesOwn(t: Gadget, sub: Plugging) {
    && (forall i, v :: 0 <= i < |t.hints| && v in Outs(t.hints[i]) ==> v >= t.plugs)
    && forall v :: v in sub ==> v < t.plugs
  }

  lemma SubstitutedMeaning(p: Prime, t: Gadget, sub: Plugging, plugs: nat, s: Assignment)
    requires DefinesOwn(t, sub)
    ensures var (r, u) := (Substituted(t, sub, plugs), Plugged(t, sub, plugs, s));
      && (RowsHold(p, r.rows, s) <==> RowsHold(p, t.rows, u))
        && (AllHinted(p, r.hints, s) <==> AllHinted(p, t.hints, u))
      && SameValues(p, r.inputs, s, t.inputs, u) && SameValues(p, r.outputs, s, t.outputs, u)
  {
    var (f, g, u) := (Plugger(sub, t.plugs, plugs), Shift(t.plugs, plugs), Plugged(t, sub, plugs, s));
    forall x | Has(t, x)
      ensures Cong(p, Sum(f(x), s), Sum(x, u))
    {
      PlugLcSum(x, t, sub, plugs, s);
    }
    CarriesMeaning(p, t, g, f, s, u);
    CarriesHints(p, t, g, f, s, u);
  }

  /** The template over the call's variables. */
  function Whole(p: Prime, t: Gadget, sub: Plugging, plugs: nat): Gadget {
    CanonicalGadget(p, Substituted(t, sub, plugs))
  }

  lemma WholeMeaning(p: Prime, t: Gadget, sub: Plugging, plugs: nat, s: Assignment)
    requires DefinesOwn(t, sub)
    ensures var (r, u) := (Whole(p, t, sub, plugs), Plugged(t, sub, plugs, s));
      && (RowsHold(p, r.rows, s) <==> RowsHold(p, t.rows, u))
        && (AllHinted(p, r.hints, s) <==> AllHinted(p, t.hints, u))
      && SameValues(p, r.inputs, s, t.inputs, u) && SameValues(p, r.outputs, s, t.outputs, u)
  {
    var (q, r, u) := (Substituted(t, sub, plugs), Whole(p, t, sub, plugs), Plugged(t, sub, plugs, s));
    SubstitutedMeaning(p, t, sub, plugs, s);
    CanonicalMeaning(p, q, s);
    SameValuesTrans(p, r.inputs, s, q.inputs, s, t.inputs, u);
    SameValuesTrans(p, r.outputs, s, q.outputs, s, t.outputs, u);
  }

  /** Two templates with one canonical form mean the same. */
  lemma SameCanonical(p: Prime, t: Gadget, call: Gadget, s: Assignment)
    requires CanonicalGadget(p, t) == CanonicalGadget(p, call)
    ensures RowsHold(p, t.rows, s) <==> RowsHold(p, call.rows, s)
    ensures SameValues(p, t.inputs, s, call.inputs, s) && SameValues(p, t.outputs, s, call.outputs, s)
  {
    CanonicalMeaning(p, t, s);
    CanonicalMeaning(p, call, s);
    var c := CanonicalGadget(p, t);
    SameValuesBack(p, c.inputs, t.inputs, s);
    SameValuesBack(p, c.outputs, t.outputs, s);
    SameValuesTrans(p, t.inputs, s, c.inputs, s, call.inputs, s);
    SameValuesTrans(p, t.outputs, s, c.outputs, s, call.outputs, s);
  }

  lemma SameValuesBack(p: Prime, xs: seq<Form>, ys: seq<Form>, s: Assignment)
    requires SameValues(p, xs, s, ys, s)
    ensures SameValues(p, ys, s, xs, s)
  {
  }

  // ----- reading the plugs off the inputs -----

  /** What the plugs carry: each of the template's inputs must be a plug of its own. */
  method PluggingOf(p: Prime, mine: seq<Form>, theirs: seq<Form>) returns (r: Option<Plugging>)
    requires |mine| == |theirs|
    ensures r.Some? <==> EachAPlug(mine, |mine|)
    ensures r.Some? ==> Carried(p, mine, theirs, |mine|, r.value)
  {
    hide CanonicalLc;
    var sub: Plugging := map[];
    for i := 0 to |mine|
      invariant EachAPlug(mine, i) && Carried(p, mine, theirs, i, sub)
    {
      var v := PlugVar(mine[i]);
      if !IsPlug(mine[i]) || v in sub {
        return None;
      }
      sub := sub[v := CanonicalLc(p, theirs[i])];
    }
    r := Some(sub);
  }

  function PlugVar(x: Form): nat {
    if x.terms == [] then 0 else x.terms[0].v
  }

  /** One term, coefficient one, no constant. */
  predicate IsPlug(x: Form) {
    |x.terms| == 1 && x.constant == 0 && x.terms[0].coeff == 1
  }

  ghost predicate EachAPlug(xs: seq<Form>, n: nat)
    requires n <= |xs|
  {
    && (forall i :: 0 <= i < n ==> IsPlug(xs[i]))
    && forall i, j :: 0 <= i < j < n ==> PlugVar(xs[i]) != PlugVar(xs[j])
  }

  /** The plugs of the first `n` inputs carry the call's inputs, and there are no others. */
  ghost predicate Carried(p: Prime, mine: seq<Form>, theirs: seq<Form>, n: nat, sub: Plugging)
    requires n <= |mine| == |theirs|
  {
    && (forall i :: 0 <= i < n ==> PlugVar(mine[i]) in sub && sub[PlugVar(mine[i])] == CanonicalLc(p, theirs[i]))
    && forall v :: v in sub ==> exists i :: 0 <= i < n && PlugVar(mine[i]) == v
  }

  // ----- a call that is its template with combinations for inputs -----

  /** Inputs read plugs only, and hints define own variables. */
  ghost predicate WellFormed(t: Gadget) {
    && (forall i :: 0 <= i < |t.inputs| ==> PlugVar(t.inputs[i]) < t.plugs || t.inputs[i].terms == [])
    && forall i, v :: 0 <= i < |t.hints| && v in Outs(t.hints[i]) ==> v >= t.plugs
  }

  /** The call's constraints are the template's, with the plugs' combinations for its inputs. */
  ghost predicate InstanceAt(p: Prime, mine: Gadget, call: Gadget, sub: Plugging, s: Assignment) {
    var u := Plugged(mine, sub, call.plugs, s);
    && (RowsHold(p, call.rows, s) <==> RowsHold(p, mine.rows, u))
    && SameValues(p, mine.inputs, u, call.inputs, s) && SameValues(p, mine.outputs, u, call.outputs, s)
  }

  lemma CarriedOwn(p: Prime, mine: Gadget, theirs: seq<Form>, sub: Plugging)
    requires WellFormed(mine) && |mine.inputs| == |theirs| && EachAPlug(mine.inputs, |theirs|)
    requires Carried(p, mine.inputs, theirs, |theirs|, sub)
    ensures DefinesOwn(mine, sub)
  {
    forall v | v in sub
      ensures v < mine.plugs
    {
      var i :| 0 <= i < |theirs| && PlugVar(mine.inputs[i]) == v;
      assert IsPlug(mine.inputs[i]);
    }
  }

  lemma SameValuesFlip(p: Prime, xs: seq<Form>, s: Assignment, ys: seq<Form>, u: Assignment)
    requires SameValues(p, xs, s, ys, u)
    ensures SameValues(p, ys, u, xs, s)
  {
  }

  lemma WholeInstance(p: Prime, mine: Gadget, call: Gadget, sub: Plugging, s: Assignment)
    requires DefinesOwn(mine, sub) && Whole(p, mine, sub, call.plugs) == CanonicalGadget(p, call)
    ensures InstanceAt(p, mine, call, sub, s)
  {
    var (w, u) := (Whole(p, mine, sub, call.plugs), Plugged(mine, sub, call.plugs, s));
    WholeMeaning(p, mine, sub, call.plugs, s);
    CanonicalMeaning(p, call, s);
    SameValuesFlip(p, w.inputs, s, mine.inputs, u);
    SameValuesFlip(p, w.outputs, s, mine.outputs, u);
    SameValuesTrans(p, mine.inputs, u, w.inputs, s, call.inputs, s);
    SameValuesTrans(p, mine.outputs, u, w.outputs, s, call.outputs, s);
  }

  /** `call` is the template with `sub` for its plugs. */
  ghost predicate Plugs(p: Prime, mine: Gadget, call: Gadget, sub: Plugging) {
    && |mine.inputs| == |call.inputs| && EachAPlug(mine.inputs, |mine.inputs|)
    && Carried(p, mine.inputs, call.inputs, |call.inputs|, sub)
    && Whole(p, mine, sub, call.plugs) == CanonicalGadget(p, call)
  }

  lemma CarriedOnce(p: Prime, mine: seq<Form>, theirs: seq<Form>, a: Plugging, b: Plugging)
    requires |mine| == |theirs| && Carried(p, mine, theirs, |mine|, a) && Carried(p, mine, theirs, |mine|, b)
    ensures a == b
  {
    hide CanonicalLc;
    assert forall v :: v in a <==> v in b;
    forall v | v in a
      ensures a[v] == b[v]
    {
      var i :| 0 <= i < |mine| && PlugVar(mine[i]) == v;
    }
    assert a == b;
  }

  /** `substitution_of`. */
  method SubstitutionOf(p: Prime, mine: Gadget, call: Gadget) returns (r: Option<Plugging>)
    requires WellFormed(mine)
    ensures r.Some? ==> forall s: Assignment :: InstanceAt(p, mine, call, r.value, s)
    ensures r.Some? ==> |mine.inputs| == |call.inputs| && Carried(p, mine.inputs, call.inputs, |call.inputs|, r.value)
    ensures r.None? ==> forall sub :: !Plugs(p, mine, call, sub)
  {
    hide CanonicalGadget, WellFormed, DefinesOwn, InstanceAt, Substituted;
    if |call.inputs| != |mine.inputs| {
      return None;
    }
    var sub := PluggingOf(p, mine.inputs, call.inputs);
    if sub.None? || Whole(p, mine, sub.value, call.plugs) != CanonicalGadget(p, call) {
      forall other | Plugs(p, mine, call, other)
        ensures false
      {
        CarriedOnce(p, mine.inputs, call.inputs, sub.value, other);
      }
      return None;
    }
    CarriedOwn(p, mine, call.inputs, sub.value);
    forall s: Assignment
      ensures InstanceAt(p, mine, call, sub.value, s)
    {
      WholeInstance(p, mine, call, sub.value, s);
    }
    r := sub;
  }

  // ----- numbering the variables left -----

  function TermVars(ts: seq<Term>): set<nat> {
    set i | 0 <= i < |ts| :: ts[i].v
  }

  function FormsVars(xs: seq<Form>): set<nat> {
    set i, v | 0 <= i < |xs| && v in TermVars(xs[i].terms) :: v
  }

  /** The variables something reads or writes. */
  function Used(t: Gadget): set<nat> {
    FormsVars(t.inputs) + FormsVars(t.outputs)
    + (set i, v | 0 <= i < |t.rows| && v in FormsVars([t.rows[i].a, t.rows[i].b, t.rows[i].c]) :: v)
    + (set i, v | 0 <= i < |t.hints| && v in FormsVars(Ins(t.hints[i])) :: v)
    + (set i, v | 0 <= i < |t.hints| && v in Outs(t.hints[i]) :: v)
  }

  /** A form of `t` reads used variables. */
  lemma HasUsed(t: Gadget, x: Form)
    requires Has(t, x)
    ensures TermVars(x.terms) <= Used(t)
  {
    if x in t.inputs {
      FormUsed(t.inputs, x);
    } else if x in t.outputs {
      FormUsed(t.outputs, x);
    } else if i :| 0 <= i < |t.rows| && InRow(t.rows[i], x) {
      FormUsed([t.rows[i].a, t.rows[i].b, t.rows[i].c], x);
    } else {
      var i :| 0 <= i < |t.hints| && x in Ins(t.hints[i]);
      FormUsed(Ins(t.hints[i]), x);
    }
  }

  lemma FormUsed(xs: seq<Form>, x: Form)
    requires x in xs
    ensures TermVars(x.terms) <= FormsVars(xs)
  {
    var i :| 0 <= i < |xs| && xs[i] == x;
  }

  /** The first `n` own variables that are used and not folded. */
  function LeftOver(plugs: nat, n: nat, folded: seq<nat>, used: set<nat>): (r: seq<nat>)
    ensures forall v :: v in r <==> plugs <= v < plugs + n && v !in folded && v in used
  {
    if n == 0 then []
    else
      var (before, v) := (LeftOver(plugs, n - 1, folded, used), plugs + n - 1);
      if v !in folded && v in used then before + [v] else before
  }

  function Renumber(plugs: nat, left: seq<nat>): nat -> nat {
    (v: nat) => if v < plugs then v else plugs + Renaming.IndexOf(left, v)
  }

  function Back(plugs: nat, left: seq<nat>): nat -> nat {
    (v: nat) => if v < plugs then v else if v - plugs < |left| then left[v - plugs] else 0
  }

  function Through(s: Assignment, g: nat -> nat): Assignment {
    (v: nat) => s(g(v))
  }

  function Renumberer(p: Prime, plugs: nat, left: seq<nat>): Map {
    (l: Form) => CanonicalLc(p, Renaming.RenameForm(l, Renumber(plugs, left)))
  }

  lemma {:induction false} RenamedSum(ts: seq<Term>, g: nat -> nat, s: Assignment)
    ensures SumTerms(Renaming.RenameTerms(ts, g), s) == SumTerms(ts, Through(s, g))
  {
    var r := Renaming.RenameTerms(ts, g);
    if ts != [] {
      RenamedSum(ts[1..], g, s);
      assert r[1..] == Renaming.RenameTerms(ts[1..], g);
    }
  }

  function Renumbered(p: Prime, t: Gadget, plugs: nat, left: seq<nat>): Gadget {
    MapGadget(t, Renumber(plugs, left), Renumberer(p, plugs, left)).(witnesses := |left|)
  }

  lemma RenumberedMeaning(p: Prime, t: Gadget, plugs: nat, left: seq<nat>, s: Assignment)
    ensures var (r, u) := (Renumbered(p, t, plugs, left), Through(s, Renumber(plugs, left)));
      && (RowsHold(p, r.rows, s) <==> RowsHold(p, t.rows, u))
      && SameValues(p, r.inputs, s, t.inputs, u) && SameValues(p, r.outputs, s, t.outputs, u)
  {
    hide CanonicalLc, RowsHold, SameValues, Has;
    var (f, g) := (Renumberer(p, plugs, left), Renumber(plugs, left));
    forall x | Has(t, x)
      ensures Cong(p, Sum(f(x), s), Sum(x, Through(s, g)))
    {
      RenumberedForm(p, plugs, left, x, s);
    }
    hide Renumberer, Renumber, Through;
    CarriesMeaning(p, t, g, f, s, Through(s, g));
  }

  lemma RenumberedForm(p: Prime, plugs: nat, left: seq<nat>, x: Form, s: Assignment)
    ensures Cong(p, Sum(Renumberer(p, plugs, left)(x), s), Sum(x, Through(s, Renumber(plugs, left))))
  {
    hide CanonicalLc, Cong, Renumber, Through;
    var g := Renumber(plugs, left);
    CanonicalSum(p, Renaming.RenameForm(x, g), s);
    RenamedSum(x.terms, g, s);
  }

  /** A template reads only used variables. */
  lemma UsedMeaning(p: Prime, t: Gadget, s: Assignment, u: Assignment)
    requires forall v :: v in Used(t) ==> s(v) == u(v)
    ensures RowsHold(p, t.rows, s) <==> RowsHold(p, t.rows, u)
    ensures SameValues(p, t.inputs, s, t.inputs, u) && SameValues(p, t.outputs, s, t.outputs, u)
  {
    forall x | Has(t, x)
      ensures Cong(p, Sum(Id()(x), s), Sum(x, u))
    {
      UsedForm(t, x, s, u);
    }
    hide Used, Has;
    CarriesMeaning(p, t, Same(), Id(), s, u);
    MapId(t);
  }

  function Id(): Map {
    (x: Form) => x
  }

  lemma MapId(t: Gadget)
    ensures var r := MapGadget(t, Same(), Id()); r.rows == t.rows && r.inputs == t.inputs && r.outputs == t.outputs
  {
  }

  lemma UsedForm(t: Gadget, x: Form, s: Assignment, u: Assignment)
    requires Has(t, x) && forall v :: v in Used(t) ==> s(v) == u(v)
    ensures Sum(x, s) == Sum(x, u)
  {
    HasUsed(t, x);
    hide Used, Has;
    forall i | 0 <= i < |x.terms|
      ensures s(x.terms[i].v) == u(x.terms[i].v)
    {
      assert x.terms[i].v in TermVars(x.terms);
    }
    SumAgrees(x.terms, s, u);
  }

  /** Renumbering and going back is the identity on used variables. */
  lemma BackThrough(plugs: nat, left: seq<nat>, v: nat)
    requires v < plugs || v in left
    ensures Back(plugs, left)(Renumber(plugs, left)(v)) == v
  {
  }

  // ----- a call that is its template folded -----

  datatype Outcome = NotAFolding | FalseRow | Panics | Folds(sub: Plugging)

  /** Two assignments give the call's plugs the same values. */
  ghost predicate SamePlugs(plugs: nat, s: Assignment, u: Assignment) {
    forall v: nat :: v < plugs ==> s(v) == u(v)
  }

  /** Constraints, inputs and outputs of the call under `s` are those of the template under `u`. */
  ghost predicate Matches(p: Prime, mine: Gadget, call: Gadget, u: Assignment, s: Assignment) {
    && (RowsHold(p, call.rows, s) <==> RowsHold(p, mine.rows, u))
    && SameValues(p, mine.inputs, u, call.inputs, s) && SameValues(p, mine.outputs, u, call.outputs, s)
  }

  /** Every assignment of the call's variables extends to one of the template's. */
  ghost predicate ExtendsTo(p: Prime, mine: Gadget, call: Gadget, sub: Plugging, s: Assignment) {
    exists w: Assignment :: SamePlugs(call.plugs, s, w) && Matches(p, mine, call, Plugged(mine, sub, call.plugs, w), s)
  }

  /** Whoever computes the template's variables as hinted has values for the call's. */
  ghost predicate Restricts(p: Prime, mine: Gadget, call: Gadget, sub: Plugging, w: Assignment) {
    AllHinted(p, mine.hints, Plugged(mine, sub, call.plugs, w)) ==>
      exists s: Assignment ::
        SamePlugs(call.plugs, s, w) && Matches(p, mine, call, Plugged(mine, sub, call.plugs, w), s)
  }

  ghost predicate FoldsOwn(plugs: nat, folds: seq<(nat, Form)>) {
    forall i :: 0 <= i < |folds| ==> folds[i].0 >= plugs
  }

  ghost predicate OutsOwn(plugs: nat, t: Gadget) {
    forall i, v :: 0 <= i < |t.hints| && v in Outs(t.hints[i]) ==> v >= plugs
  }

  lemma {:induction false} LiftPlugs(plugs: nat, folds: seq<(nat, Form)>, s: Assignment)
    requires FoldsOwn(plugs, folds)
    ensures SamePlugs(plugs, s, Lift(folds, s))
    decreases |folds|
  {
    if folds != [] {
      var (v, e) := folds[|folds| - 1];
      LiftPlugs(plugs, folds[..|folds| - 1], Update(s, v, Sum(e, s)));
    }
  }

  lemma AffineOuts(p: Prime, h: Hint)
    requires AffineValue(p, h).Some?
    ensures forall i :: 0 <= i < |AffineValue(p, h).value| ==> AffineValue(p, h).value[i].0 in Outs(h)
  {
    hide CanonicalLc, Constant, Plus, ScaleBy;
    match h
    case Bits(outs, x) =>
    case _ =>
  }

  lemma WholeOuts(p: Prime, t: Gadget, sub: Plugging, plugs: nat)
    requires DefinesOwn(t, sub)
    ensures OutsOwn(plugs, Whole(p, t, sub, plugs))
  {
    var (q, r) := (Substituted(t, sub, plugs), Whole(p, t, sub, plugs));
    forall i, v | 0 <= i < |r.hints| && v in Outs(r.hints[i])
      ensures v >= plugs
    {
      OutsMapped(q.hints[i], Same(), Canonizer(p), v);
      OutsMapped(t.hints[i], Shift(t.plugs, plugs), Plugger(sub, t.plugs, plugs), v);
    }
  }

  lemma OutsMapped(h: Hint, g: nat -> nat, f: Map, v: nat)
    requires v in Outs(MapHint(h, g, f))
    ensures exists u :: u in Outs(h) && v == g(u)
  {
    var (vs, us) := (Outs(MapHint(h, g, f)), Outs(h));
    var i :| 0 <= i < |vs| && vs[i] == v;
    assert us[i] in us && v == g(us[i]);
  }

  /** A row that never holds: no honest assignment meets the template. */
  lemma NeverMeets(p: Prime, whole: Gadget, t: Gadget, folds: seq<(nat, Form)>, r: GadgetRow, w: Assignment)
    requires Folded(p, whole, t, folds) && r in t.rows && RowValidity(p, r) == Never && AllHinted(p, whole.hints, w)
    ensures !RowsHold(p, whole.rows, w)
  {
    assert HonestAt(p, whole, t, w);
    RowValidityHolds(p, r, w);
  }

  lemma FoldedExtends(p: Prime, mine: Gadget, call: Gadget, sub: Plugging, t: Gadget, folds: seq<(nat, Form)>,
                      left: seq<nat>, s: Assignment)
    requires DefinesOwn(mine, sub) && FoldsOwn(call.plugs, folds)
    requires Folded(p, Whole(p, mine, sub, call.plugs), t, folds)
    requires CanonicalGadget(p, Renumbered(p, t, call.plugs, left)) == CanonicalGadget(p, call)
    ensures ExtendsTo(p, mine, call, sub, s)
  {
    var (n, whole) := (call.plugs, Whole(p, mine, sub, call.plugs));
    var r := Renumbered(p, t, n, left);
    var u := Through(s, Renumber(n, left));
    var w := Lift(folds, u);
    var m := Plugged(mine, sub, n, w);
    hide Folded, RowsHold, SameValues, Renumbered, CanonicalGadget, Whole;
    SameCanonical(p, r, call, s);
    RenumberedMeaning(p, t, n, left, s);
    FoldedHere(p, whole, t, folds, u);
    WholeMeaning(p, mine, sub, n, w);
    LiftPlugs(n, folds, u);
    Chain4(p, call.inputs, s, r.inputs, t.inputs, u, whole.inputs, w, mine.inputs, m);
    Chain4(p, call.outputs, s, r.outputs, t.outputs, u, whole.outputs, w, mine.outputs, m);
    assert SamePlugs(n, s, w) && Matches(p, mine, call, m, s);
  }

  lemma FoldedHere(p: Prime, whole: Gadget, t: Gadget, folds: seq<(nat, Form)>, u: Assignment)
    requires Folded(p, whole, t, folds)
    ensures FoldedAt(p, whole, t, folds, u) && (AllHinted(p, whole.hints, u) ==> HonestAt(p, whole, t, u))
  {
  }

  lemma Chain4(p: Prime, a: seq<Form>, s: Assignment, b: seq<Form>, c: seq<Form>, u: Assignment, d: seq<Form>,
               w: Assignment, e: seq<Form>, m: Assignment)
    requires SameValues(p, b, s, a, s) && SameValues(p, b, s, c, u) && SameValues(p, c, u, d, w)
      && SameValues(p, d, w, e, m)
    ensures SameValues(p, e, m, a, s)
  {
    SameValuesFlip(p, b, s, c, u);
    SameValuesFlip(p, c, u, d, w);
    SameValuesFlip(p, d, w, e, m);
    SameValuesTrans(p, e, m, d, w, c, u);
    SameValuesTrans(p, e, m, c, u, b, s);
    SameValuesTrans(p, e, m, b, s, a, s);
  }

  lemma FoldedRestricts(p: Prime, mine: Gadget, call: Gadget, sub: Plugging, t: Gadget, folds: seq<(nat, Form)>,
                        left: seq<nat>, w: Assignment)
    requires DefinesOwn(mine, sub)
    requires Folded(p, Whole(p, mine, sub, call.plugs), t, folds)
    requires forall v :: v in Used(t) ==> v < call.plugs || v in left
    requires CanonicalGadget(p, Renumbered(p, t, call.plugs, left)) == CanonicalGadget(p, call)
    ensures Restricts(p, mine, call, sub, w)
  {
    var (n, m) := (call.plugs, Plugged(mine, sub, call.plugs, w));
    var s := Through(w, Back(n, left));
    BackAgrees(t, n, left, w);
    hide Used, Folded, Whole, CanonicalGadget, Renumbered, Through, Back, Renumber;
    if AllHinted(p, mine.hints, m) {
      FoldedHonest(p, mine, call, sub, t, folds, left, w, s);
      BackPlugs(n, left, w);
      assert SamePlugs(n, s, w) && Matches(p, mine, call, m, s);
    }
  }

  lemma BackPlugs(plugs: nat, left: seq<nat>, w: Assignment)
    ensures SamePlugs(plugs, Through(w, Back(plugs, left)), w)
  {
  }

  lemma BackAgrees(t: Gadget, plugs: nat, left: seq<nat>, w: Assignment)
    requires forall v :: v in Used(t) ==> v < plugs || v in left
    ensures forall v :: v in Used(t) ==> Through(Through(w, Back(plugs, left)), Renumber(plugs, left))(v) == w(v)
  {
    hide Used;
    forall v | v in Used(t)
      ensures Through(Through(w, Back(plugs, left)), Renumber(plugs, left))(v) == w(v)
    {
      BackThrough(plugs, left, v);
    }
  }

  lemma FoldedHonest(p: Prime, mine: Gadget, call: Gadget, sub: Plugging, t: Gadget, folds: seq<(nat, Form)>,
                     left: seq<nat>, w: Assignment, s: Assignment)
    requires DefinesOwn(mine, sub) && Folded(p, Whole(p, mine, sub, call.plugs), t, folds)
    requires CanonicalGadget(p, Renumbered(p, t, call.plugs, left)) == CanonicalGadget(p, call)
    requires forall v :: v in Used(t) ==> Through(s, Renumber(call.plugs, left))(v) == w(v)
    requires AllHinted(p, mine.hints, Plugged(mine, sub, call.plugs, w))
    ensures Matches(p, mine, call, Plugged(mine, sub, call.plugs, w), s)
  {
    var (n, whole) := (call.plugs, Whole(p, mine, sub, call.plugs));
    var (r, u, m) := (Renumbered(p, t, n, left), Through(s, Renumber(n, left)), Plugged(mine, sub, n, w));
    hide Folded, RowsHold, SameValues, Renumbered, CanonicalGadget, Whole, Used, Through, Plugged;
    WholeMeaning(p, mine, sub, n, w);
    FoldedHere(p, whole, t, folds, w);
    UsedMeaning(p, t, u, w);
    RenumberedMeaning(p, t, n, left, s);
    SameCanonical(p, r, call, s);
    SameValuesTrans(p, r.inputs, s, t.inputs, u, t.inputs, w);
    SameValuesTrans(p, r.outputs, s, t.outputs, u, t.outputs, w);
    Chain4(p, call.inputs, s, r.inputs, t.inputs, w, whole.inputs, w, mine.inputs, m);
    Chain4(p, call.outputs, s, r.outputs, t.outputs, w, whole.outputs, w, mine.outputs, m);
  }

  // ----- `folding_of` -----

  function Dropped(t: Gadget, i: nat): Gadget
    requires i < |t.hints|
  {
    t.(hints := t.hints[..i] + t.hints[i + 1..])
  }

  /** A template with its hints from `i` on folded where their values are affine, and the variables folded; or a row
      that never holds. */
  datatype Rest = NeverHolds | Rest(t: Gadget, folded: seq<nat>)

  predicate HasNever(p: Prime, rows: seq<GadgetRow>) {
    exists r :: r in rows && RowValidity(p, r) == Never
  }

  function FoldRest(p: Prime, t: Gadget, i: nat, folded: seq<nat>): Rest
    decreases |t.hints| - i
  {
    if i >= |t.hints| then Rest(t, folded)
    else
      match AffineValue(p, t.hints[i])
      case None => FoldRest(p, t, i + 1, folded)
      case Some(values) =>
        var r := ReplaceAll(p, Dropped(t, i), values);
        if HasNever(p, r.rows) then NeverHolds
        else FoldRest(p, r.(rows := Kept(p, r.rows)), i, folded + FoldedVars(values))
  }

  /** The template with `sub` plugged in and folded, on the variables left, is the call. */
  ghost predicate FoldsInto(p: Prime, mine: Gadget, call: Gadget, sub: Plugging) {
    match FoldRest(p, Whole(p, mine, sub, call.plugs), 0, [])
    case NeverHolds => false
    case Rest(t, folded) =>
      var left := LeftOver(call.plugs, mine.witnesses, folded, Used(t));
      && folded != [] && (forall v :: v in Used(t) && v >= call.plugs ==> v in left)
      && CanonicalGadget(p, Renumbered(p, t, call.plugs, left)) == CanonicalGadget(p, call)
  }

  /** As many inputs and outputs, each input a plug of its own, carrying what `sub` says. */
  ghost predicate Fitted(p: Prime, mine: Gadget, call: Gadget, sub: Plugging) {
    && |mine.inputs| == |call.inputs| && |mine.outputs| == |call.outputs|
    && EachAPlug(mine.inputs, |mine.inputs|) && Carried(p, mine.inputs, call.inputs, |call.inputs|, sub)
  }

  lemma NeverFolds(p: Prime, mine: Gadget, call: Gadget, sub: Plugging)
    requires FoldRest(p, Whole(p, mine, sub, call.plugs), 0, []).NeverHolds?
    ensures !FoldsInto(p, mine, call, sub)
  {
  }

  lemma FoldsIntoRest(p: Prime, mine: Gadget, call: Gadget, sub: Plugging, t: Gadget, folded: seq<nat>)
    requires FoldRest(p, Whole(p, mine, sub, call.plugs), 0, []) == Rest(t, folded)
    ensures FoldsInto(p, mine, call, sub) <==>
      var left := LeftOver(call.plugs, mine.witnesses, folded, Used(t));
      && folded != [] && (forall v :: v in Used(t) && v >= call.plugs ==> v in left)
      && CanonicalGadget(p, Renumbered(p, t, call.plugs, left)) == CanonicalGadget(p, call)
  {
    hide FoldRest, Whole, CanonicalGadget, Renumbered, Used;
  }

  lemma ReplaceNext(p: Prime, t: Gadget, values: seq<(nat, Form)>, k: nat)
    requires k < |values|
    ensures ReplaceAll(p, t, values[..k + 1])
         == Replaced(p, ReplaceAll(p, t, values[..k]), values[k].0, values[k].1)
  {
    assert values[..k + 1][..k] == values[..k];
  }

  lemma FoldedBoth(a: seq<(nat, Form)>, b: seq<(nat, Form)>)
    ensures FoldedVars(a + b) == FoldedVars(a) + FoldedVars(b)
  {
  }

  /** What folding one hint away does. */
  method FoldHint(p: Prime, ghost whole: Gadget, t: Gadget, folded: seq<nat>, ghost folds: seq<(nat, Form)>,
                  ghost plugs: nat, i: nat, values: seq<(nat, Form)>)
    returns (r: Gadget, foldedNow: seq<nat>, ghost foldsNow: seq<(nat, Form)>)
    requires Folded(p, whole, t, folds) && i < |t.hints| && AffineValue(p, t.hints[i]) == Some(values)
    requires FoldsOwn(plugs, folds) && OutsOwn(plugs, t) && folded == FoldedVars(folds)
    ensures Folded(p, whole, r, foldsNow) && FoldsOwn(plugs, foldsNow) && OutsOwn(plugs, r)
      && foldedNow == FoldedVars(foldsNow)
    ensures |r.hints| == |t.hints| - 1 && foldsNow == folds + values && r.plugs == t.plugs
    ensures r == ReplaceAll(p, Dropped(t, i), values) && foldedNow == folded + FoldedVars(values)
  {
    hide Folded, CanonicalLc, AffineValue, Replaced;
    DropHint(p, whole, t, folds, i);
    AffineOuts(p, t.hints[i]);
    ghost var h := t.hints[i];
    assert forall s: Assignment :: AllHinted(p, whole.hints, s) ==> FoldsHold(p, values, s) by {
      forall s: Assignment | AllHinted(p, whole.hints, s)
        ensures FoldsHold(p, values, s)
      {
        AffineValueIsHint(p, h, s);
      }
    }
    r, foldedNow, foldsNow := t.(hints := t.hints[..i] + t.hints[i + 1..]), folded, folds;
    assert OutsOwn(plugs, r) by { DropOuts(plugs, t, i); }
    for k := 0 to |values|
      invariant Folded(p, whole, r, foldsNow) && FoldsOwn(plugs, foldsNow) && OutsOwn(plugs, r)
        && foldedNow == FoldedVars(foldsNow)
      invariant |r.hints| == |t.hints| - 1 && foldsNow == folds + values[..k] && r.plugs == t.plugs
      invariant r == ReplaceAll(p, Dropped(t, i), values[..k])
    {
      hide AffineValue, OutsOwn, ReplaceAll, Replaced;
      var (v, e) := values[k];
      assert v in Outs(h) && v >= plugs by { OutAtLeast(plugs, t, i, v); }
      assert forall s: Assignment :: AllHinted(p, whole.hints, s) ==> FoldHolds(p, (v, e), s);
      FoldOne(p, whole, r, foldsNow, v, e);
      ReplaceNext(p, Dropped(t, i), values, k);
      ReplacedOuts(p, plugs, r, v, e);
      r, foldedNow, foldsNow := Replaced(p, r, v, e), foldedNow + [v], foldsNow + [(v, e)];
      assert values[..k + 1] == values[..k] + [(v, e)];
    }
    assert values[..|values|] == values;
    FoldedBoth(folds, values);
  }

  function FoldedVars(folds: seq<(nat, Form)>): (r: seq<nat>)
    ensures |r| == |folds| && forall i :: 0 <= i < |folds| ==> r[i] == folds[i].0
  {
    seq(|folds|, i requires 0 <= i < |folds| => folds[i].0)
  }

  lemma OutAtLeast(plugs: nat, t: Gadget, i: nat, v: nat)
    requires OutsOwn(plugs, t) && i < |t.hints| && v in Outs(t.hints[i])
    ensures v >= plugs
  {
  }

  lemma DropOuts(plugs: nat, t: Gadget, i: nat)
    requires OutsOwn(plugs, t) && i < |t.hints|
    ensures OutsOwn(plugs, t.(hints := t.hints[..i] + t.hints[i + 1..]))
  {
    var d := t.(hints := t.hints[..i] + t.hints[i + 1..]);
    assert forall j :: 0 <= j < |d.hints| ==> d.hints[j] == t.hints[if j < i then j else j + 1];
  }

  lemma ReplacedOuts(p: Prime, plugs: nat, t: Gadget, v: nat, e: Form)
    requires OutsOwn(plugs, t)
    ensures OutsOwn(plugs, Replaced(p, t, v, e)) && |Replaced(p, t, v, e).hints| == |t.hints|
      && Replaced(p, t, v, e).plugs == t.plugs
  {
    var r := Replaced(p, t, v, e);
    forall i, w | 0 <= i < |r.hints| && w in Outs(r.hints[i])
      ensures w >= plugs
    {
      OutsMapped(t.hints[i], Same(), Replacer(p, v, e), w);
    }
  }

  /** The rows still open, or a row that never holds. */
  method KeptRows(p: Prime, rows: seq<GadgetRow>) returns (kept: seq<GadgetRow>, never: bool)
    ensures !never ==> kept == Kept(p, rows)
    ensures never <==> HasNever(p, rows)
  {
    hide RowValidity;
    kept := [];
    for i := 0 to |rows|
      invariant kept == Kept(p, rows[..i])
      invariant forall j :: 0 <= j < i ==> RowValidity(p, rows[j]) != Never
    {
      var r := rows[i];
      assert rows[..i + 1][..i] == rows[..i] && r in rows;
      match RowValidity(p, r)
      case Always =>
      case Never => return kept, true;
      case Open => kept := kept + [r];
    }
    assert rows[..|rows|] == rows;
    never := false;
  }

  /** `folding_of`. */
  method FoldingOf(p: Prime, mine: Gadget, call: Gadget) returns (r: Outcome)
    requires WellFormed(mine)
    ensures r.Folds? ==> |mine.inputs| == |call.inputs| && Carried(p, mine.inputs, call.inputs, |call.inputs|, r.sub)
    ensures r.Folds? ==>
      forall s: Assignment :: ExtendsTo(p, mine, call, r.sub, s) && Restricts(p, mine, call, r.sub, s)
    ensures r.Folds? <==> exists sub :: Fitted(p, mine, call, sub) && FoldsInto(p, mine, call, sub)
    ensures r.FalseRow? ==> exists sub ::
      && |mine.inputs| == |call.inputs| && Carried(p, mine.inputs, call.inputs, |call.inputs|, sub)
      && forall w: Assignment :: AllHinted(p, mine.hints, Plugged(mine, sub, call.plugs, w)) ==>
           !RowsHold(p, mine.rows, Plugged(mine, sub, call.plugs, w))
  {
    hide WellFormed, DefinesOwn, Carried, Folded, Whole, CanonicalGadget, Renumbered, ExtendsTo, Restricts, AffineValue,
      Used, RowValidity, RowsHold, AllHinted, Plugged, FoldsOwn, OutsOwn, Kept, ReplaceAll, FoldsInto;
    if |call.inputs| != |mine.inputs| || |call.outputs| != |mine.outputs| {
      return NotAFolding;
    }
    var plugging := PluggingOf(p, mine.inputs, call.inputs);
    if plugging.None? {
      return NotAFolding;
    }
    var (sub, plugs) := (plugging.value, call.plugs);
    CarriedOwn(p, mine, call.inputs, sub);
    OnlyFitted(p, mine, call, sub);
    var t := Whole(p, mine, sub, plugs);
    ghost var whole := t;
    var folded: seq<nat> := [];
    ghost var folds: seq<(nat, Form)> := [];
    StartFolding(p, mine, sub, plugs);
    var i := 0;
    while i < |t.hints|
      invariant Folded(p, whole, t, folds) && FoldsOwn(plugs, folds) && OutsOwn(plugs, t) && folded == FoldedVars(folds)
      invariant FoldRest(p, whole, 0, []) == FoldRest(p, t, i, folded)
      decreases |t.hints| - i
    {
      var values := AffineValue(p, t.hints[i]);
      if values.None? {
        i := i + 1;
      } else {
        t, folded, folds := FoldHint(p, whole, t, folded, folds, plugs, i, values.value);
        var kept, never := KeptRows(p, t.rows);
        if never {
          AllNever(p, mine, sub, plugs, whole, t, folds);
          assert !FoldsInto(p, mine, call, sub) by { NeverFolds(p, mine, call, sub); }
          return FalseRow;
        }
        KeepRows(p, whole, t, folds);
        KeepOuts(plugs, t, kept);
        t := t.(rows := kept);
      }
    }
    FoldsIntoRest(p, mine, call, sub, t, folded);
    if folded == [] {
      return NotAFolding;
    }
    var used := Used(t);
    var left := LeftOver(plugs, mine.witnesses, folded, used);
    if exists v :: v in used && v >= plugs && v !in left {
      return Panics;
    }
    if CanonicalGadget(p, Renumbered(p, t, plugs, left)) != CanonicalGadget(p, call) {
      return NotAFolding;
    }
    forall s: Assignment
      ensures ExtendsTo(p, mine, call, sub, s) && Restricts(p, mine, call, sub, s)
    {
      FoldedExtends(p, mine, call, sub, t, folds, left, s);
      FoldedRestricts(p, mine, call, sub, t, folds, left, s);
    }
    r := Folds(sub);
  }

  /** The inputs say what the plugs carry. */
  lemma OnlyFitted(p: Prime, mine: Gadget, call: Gadget, sub: Plugging)
    requires Fitted(p, mine, call, sub)
    ensures forall other :: Fitted(p, mine, call, other) ==> other == sub
  {
    forall other | Fitted(p, mine, call, other)
      ensures other == sub
    {
      CarriedOnce(p, mine.inputs, call.inputs, sub, other);
    }
  }

  lemma StartFolding(p: Prime, mine: Gadget, sub: Plugging, plugs: nat)
    requires DefinesOwn(mine, sub)
    ensures var t := Whole(p, mine, sub, plugs); Folded(p, t, t, []) && FoldsOwn(plugs, []) && OutsOwn(plugs, t)
  {
    var t := Whole(p, mine, sub, plugs);
    WholeOuts(p, mine, sub, plugs);
    CanonicalAllReduced(p, Substituted(mine, sub, plugs));
  }

  lemma KeepOuts(plugs: nat, t: Gadget, rows: seq<GadgetRow>)
    requires OutsOwn(plugs, t)
    ensures OutsOwn(plugs, t.(rows := rows))
  {
  }

  lemma AllNever(p: Prime, mine: Gadget, sub: Plugging, plugs: nat, whole: Gadget, t: Gadget, folds: seq<(nat, Form)>)
    requires DefinesOwn(mine, sub) && whole == Whole(p, mine, sub, plugs) && Folded(p, whole, t, folds)
    requires exists r :: r in t.rows && RowValidity(p, r) == Never
    ensures forall w: Assignment :: AllHinted(p, mine.hints, Plugged(mine, sub, plugs, w)) ==>
      !RowsHold(p, mine.rows, Plugged(mine, sub, plugs, w))
  {
    var r :| r in t.rows && RowValidity(p, r) == Never;
    hide Folded, RowValidity;
    forall w: Assignment | AllHinted(p, mine.hints, Plugged(mine, sub, plugs, w))
      ensures !RowsHold(p, mine.rows, Plugged(mine, sub, plugs, w))
    {
      WholeMeaning(p, mine, sub, plugs, w);
      NeverMeets(p, whole, t, folds, r, w);
    }
  }
}
