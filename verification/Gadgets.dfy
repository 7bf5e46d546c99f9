/**
 * Gadget templates and the calls that are instances of them: a call whose inputs are combinations of variables, and
 * a call with constant inputs, where hints with affine values are folded away.
 */
module Gadgets {
  import opened Words
  import opened Fields
  import opened Linear
  import opened Reduction

  datatype GadgetRow = GadgetRow(a: Form, b: Form, c: Form)

  /** The hints that matter to folding; any other by its tag, the variables it defines and the forms it reads. */
  datatype Hint =
    | Bit(out: nat, input: Form, index: nat)
    | Bits(outs: seq<nat>, input: Form)
    | Xor(out: nat, a: Form, b: Form)
    | Or(out: nat, a: Form, b: Form)
    | Product(out: nat, a: Form, b: Form)
    | Other(tag: nat, outs: seq<nat>, ins: seq<Form>)

  /** A gadget call's rows and hints: variables `0..plugs` are the ones its inputs read, then come its own. */
  datatype Gadget = Gadget(name: string, plugs: nat, witnesses: nat, inputs: seq<Form>, outputs: seq<Form>,
                           rows: seq<GadgetRow>, hints: seq<Hint>)

  // ----- meaning -----

  ghost predicate RowHolds(p: Prime, r: GadgetRow, s: Assignment) {
    Cong(p, Sum(r.a, s) * Sum(r.b, s), Sum(r.c, s))
  }

  ghost predicate RowsHold(p: Prime, rows: seq<GadgetRow>, s: Assignment) {
    forall i :: 0 <= i < |rows| ==> RowHolds(p, rows[i], s)
  }

  /** Bit `i` of an integer in two's complement. */
  function BitAt(x: int, i: nat): (r: int)
    ensures 0 <= r <= 1
  {
    x / Pow2(i) % 2
  }

  ghost predicate BitIs(p: Prime, out: nat, x: Form, i: nat, s: Assignment) {
    Cong(p, s(out), BitAt(Sum(x, s) % p, i))
  }

  function XorOf(a: int, b: int): int { a + b - 2 * (a * b) }

  function OrOf(a: int, b: int): int { a + b - a * b }

  function Line(k: int, slope: int, x: int): int { k + slope * x }

  /** The variables a hint defines have the values it computes (`Other` is not looked at). */
  ghost predicate HintHolds(p: Prime, h: Hint, s: Assignment) {
    match h
    case Bit(out, x, i) => BitIs(p, out, x, i, s)
    case Bits(outs, x) => forall i :: 0 <= i < |outs| ==> BitIs(p, outs[i], x, i, s)
    case Xor(out, a, b) => Cong(p, s(out), XorOf(Sum(a, s), Sum(b, s)))
    case Or(out, a, b) => Cong(p, s(out), OrOf(Sum(a, s), Sum(b, s)))
    case Product(out, a, b) => Cong(p, s(out), Sum(a, s) * Sum(b, s))
    case Other(_, _, _) => true
  }

  ghost predicate AllHinted(p: Prime, hints: seq<Hint>, s: Assignment) {
    forall i :: 0 <= i < |hints| ==> HintHolds(p, hints[i], s)
  }

  /** The forms of `xs` under `s` are worth those of `ys` under `u`. */
  ghost predicate SameValues(p: Prime, xs: seq<Form>, s: Assignment, ys: seq<Form>, u: Assignment) {
    |xs| == |ys| && forall i :: 0 <= i < |xs| ==> Cong(p, Sum(xs[i], s), Sum(ys[i], u))
  }

  // ----- mapping every form -----

  type Map = Form -> Form

  function MapAll(xs: seq<Form>, f: Map): (r: seq<Form>)
    ensures |r| == |xs| && forall i :: 0 <= i < |xs| ==> r[i] == f(xs[i])
  {
    seq(|xs|, i requires 0 <= i < |xs| => f(xs[i]))
  }

  function MapVars(vs: seq<nat>, g: nat -> nat): (r: seq<nat>)
    ensures |r| == |vs| && forall i :: 0 <= i < |vs| ==> r[i] == g(vs[i])
  {
    seq(|vs|, i requires 0 <= i < |vs| => g(vs[i]))
  }

  function MapRow(r: GadgetRow, f: Map): GadgetRow {
    GadgetRow(f(r.a), f(r.b), f(r.c))
  }

  function MapRows(rows: seq<GadgetRow>, f: Map): (r: seq<GadgetRow>)
    ensures |r| == |rows| && forall i :: 0 <= i < |rows| ==> r[i] == MapRow(rows[i], f)
  {
    seq(|rows|, i requires 0 <= i < |rows| => MapRow(rows[i], f))
  }

  /** `subst_witness_vars`: `g` on defined variables, `f` on forms read. */
  function MapHint(h: Hint, g: nat -> nat, f: Map): Hint {
    match h
    case Bit(out, x, i) => Bit(g(out), f(x), i)
    case Bits(outs, x) => Bits(MapVars(outs, g), f(x))
    case Xor(out, a, b) => Xor(g(out), f(a), f(b))
    case Or(out, a, b) => Or(g(out), f(a), f(b))
    case Product(out, a, b) => Product(g(out), f(a), f(b))
    case Other(tag, outs, ins) => Other(tag, MapVars(outs, g), MapAll(ins, f))
  }

  function MapHints(hs: seq<Hint>, g: nat -> nat, f: Map): (r: seq<Hint>)
    ensures |r| == |hs| && forall i :: 0 <= i < |hs| ==> r[i] == MapHint(hs[i], g, f)
  {
    seq(|hs|, i requires 0 <= i < |hs| => MapHint(hs[i], g, f))
  }

  function MapGadget(t: Gadget, g: nat -> nat, f: Map): Gadget {
    t.(inputs := MapAll(t.inputs, f), outputs := MapAll(t.outputs, f), rows := MapRows(t.rows, f),
      hints := MapHints(t.hints, g, f))
  }

  function Outs(h: Hint): seq<nat> {
    match h
    case Bits(outs, _) => outs
    case Other(_, outs, _) => outs
    case _ => [h.out]
  }

  function Ins(h: Hint): seq<Form> {
    match h
    case Bit(_, x, _) => [x]
    case Bits(_, x) => [x]
    case Other(_, _, ins) => ins
    case _ => [h.a, h.b]
  }

  ghost predicate InRow(r: GadgetRow, x: Form) {
    x == r.a || x == r.b || x == r.c
  }

  /** `x` is a form of `t`. */
  ghost predicate Has(t: Gadget, x: Form) {
    || x in t.inputs || x in t.outputs
    || (exists i :: 0 <= i < |t.rows| && InRow(t.rows[i], x))
    || (exists i :: 0 <= i < |t.hints| && x in Ins(t.hints[i]))
  }

  /** `f` turns a form's value under `u` into its value under `s`. */
  ghost predicate Carries(p: Prime, t: Gadget, f: Map, s: Assignment, u: Assignment) {
    forall x :: Has(t, x) ==> Cong(p, Sum(f(x), s), Sum(x, u))
  }

  lemma CarriesRow(p: Prime, r: GadgetRow, f: Map, s: Assignment, u: Assignment)
    requires Cong(p, Sum(f(r.a), s), Sum(r.a, u)) && Cong(p, Sum(f(r.b), s), Sum(r.b, u))
      && Cong(p, Sum(f(r.c), s), Sum(r.c, u))
    ensures RowHolds(p, MapRow(r, f), s) <==> RowHolds(p, r, u)
  {
    CongMul(p, Sum(f(r.a), s), Sum(r.a, u), Sum(f(r.b), s), Sum(r.b, u));
  }

  /** A mapping that carries values keeps rows, inputs and outputs. */
  lemma CarriesMeaning(p: Prime, t: Gadget, g: nat -> nat, f: Map, s: Assignment, u: Assignment)
    requires Carries(p, t, f, s, u)
    ensures RowsHold(p, MapGadget(t, g, f).rows, s) <==> RowsHold(p, t.rows, u)
    ensures SameValues(p, MapGadget(t, g, f).inputs, s, t.inputs, u)
      && SameValues(p, MapGadget(t, g, f).outputs, s, t.outputs, u)
  {
    var rows := MapGadget(t, g, f).rows;
    forall i | 0 <= i < |t.rows|
      ensures RowHolds(p, rows[i], s) <==> RowHolds(p, t.rows[i], u)
    {
      assert InRow(t.rows[i], t.rows[i].a) && InRow(t.rows[i], t.rows[i].b) && InRow(t.rows[i], t.rows[i].c);
      assert Has(t, t.rows[i].a) && Has(t, t.rows[i].b) && Has(t, t.rows[i].c);
      CarriesRow(p, t.rows[i], f, s, u);
    }
    if RowsHold(p, rows, s) {
      forall i | 0 <= i < |t.rows|
        ensures RowHolds(p, t.rows[i], u)
      {
        assert RowHolds(p, rows[i], s);
      }
    }
    forall i | 0 <= i < |t.inputs|
      ensures Cong(p, Sum(f(t.inputs[i]), s), Sum(t.inputs[i], u))
    {
      assert Has(t, t.inputs[i]);
    }
    forall i | 0 <= i < |t.outputs|
      ensures Cong(p, Sum(f(t.outputs[i]), s), Sum(t.outputs[i], u))
    {
      assert Has(t, t.outputs[i]);
    }
  }

  lemma CarriesHint(p: Prime, t: Gadget, i: nat, g: nat -> nat, f: Map, s: Assignment, u: Assignment)
    requires Carries(p, t, f, s, u) && i < |t.hints| && forall v :: v in Outs(t.hints[i]) ==> Cong(p, s(g(v)), u(v))
    ensures HintHolds(p, MapHint(t.hints[i], g, f), s) <==> HintHolds(p, t.hints[i], u)
  {
    var h := t.hints[i];
    forall x | x in Ins(h)
      ensures Cong(p, Sum(f(x), s), Sum(x, u))
    {
      assert Has(t, x);
    }
    match h
    case Bits(outs, x) =>
      assert x in Ins(h);
      BitsCarry(p, outs, x, g, f, s, u);
    case Other(_, _, _) =>
    case Bit(out, x, j) =>
      assert x in Ins(h) && out in Outs(h);
    case Xor(out, a, b) =>
      assert a in Ins(h) && b in Ins(h) && out in Outs(h);
      BinaryCarries(p, Sum(f(a), s), Sum(a, u), Sum(f(b), s), Sum(b, u));
    case Or(out, a, b) =>
      assert a in Ins(h) && b in Ins(h) && out in Outs(h);
      BinaryCarries(p, Sum(f(a), s), Sum(a, u), Sum(f(b), s), Sum(b, u));
    case Product(out, a, b) =>
      assert a in Ins(h) && b in Ins(h) && out in Outs(h);
      BinaryCarries(p, Sum(f(a), s), Sum(a, u), Sum(f(b), s), Sum(b, u));
  }

  lemma BitsCarry(p: Prime, outs: seq<nat>, x: Form, g: nat -> nat, f: Map, s: Assignment, u: Assignment)
    requires Cong(p, Sum(f(x), s), Sum(x, u)) && forall v :: v in outs ==> Cong(p, s(g(v)), u(v))
    ensures HintHolds(p, Bits(MapVars(outs, g), f(x)), s) <==> HintHolds(p, Bits(outs, x), u)
  {
    var vs := MapVars(outs, g);
    forall j | 0 <= j < |outs|
      ensures BitIs(p, vs[j], f(x), j, s) <==> BitIs(p, outs[j], x, j, u)
    {
      assert outs[j] in outs;
    }
    if HintHolds(p, Bits(vs, f(x)), s) {
      forall j | 0 <= j < |outs|
        ensures BitIs(p, outs[j], x, j, u)
      {
        assert BitIs(p, vs[j], f(x), j, s);
      }
    }
  }

  lemma BinaryCarries(p: Prime, a: int, a': int, b: int, b': int)
    requires Cong(p, a, a') && Cong(p, b, b')
    ensures Cong(p, a * b, a' * b') && Cong(p, OrOf(a, b), OrOf(a', b')) && Cong(p, XorOf(a, b), XorOf(a', b'))
  {
    CongMul(p, a, a', b, b');
    CongAdd(p, a, a', b, b');
    GateCarries(p, a + b, a' + b', a * b, a' * b');
  }

  lemma GateCarries(p: Prime, t: int, t': int, m: int, m': int)
    requires Cong(p, t, t') && Cong(p, m, m')
    ensures Cong(p, t - m, t' - m') && Cong(p, t - 2 * m, t' - 2 * m')
  {
    CongAdd(p, t, t', m, m');
    CongAdd(p, t - m, t' - m', m, m');
  }

  /** All hints. */
  lemma CarriesHints(p: Prime, t: Gadget, g: nat -> nat, f: Map, s: Assignment, u: Assignment)
    requires Carries(p, t, f, s, u)
    requires forall i, v :: 0 <= i < |t.hints| && v in Outs(t.hints[i]) ==> Cong(p, s(g(v)), u(v))
    ensures AllHinted(p, MapGadget(t, g, f).hints, s) <==> AllHinted(p, t.hints, u)
  {
    var hs := MapGadget(t, g, f).hints;
    forall i | 0 <= i < |t.hints|
      ensures HintHolds(p, hs[i], s) <==> HintHolds(p, t.hints[i], u)
    {
      CarriesHint(p, t, i, g, f, s, u);
    }
    if AllHinted(p, hs, s) {
      forall i | 0 <= i < |t.hints|
        ensures HintHolds(p, t.hints[i], u)
      {
        assert HintHolds(p, hs[i], s);
      }
    }
  }

  // ----- affine hints and rows that always hold -----

  function Constant(p: Prime, c: int): Form {
    Form(c % p, [])
  }

  predicate IsConstant(x: Form) {
    x.terms == []
  }

  function ScaleBy(x: Form, k: int): Form {
    Form(x.constant * k, Scaled(x.terms, k))
  }

  function Plus(x: Form, y: Form): Form {
    Form(x.constant + y.constant, x.terms + y.terms)
  }

  lemma {:induction false} SumAppend(a: seq<Term>, b: seq<Term>, s: Assignment)
    ensures SumTerms(a + b, s) == SumTerms(a, s) + SumTerms(b, s)
  {
    if a == [] {
      assert a + b == b;
    } else {
      assert (a + b)[1..] == a[1..] + b;
      SumAppend(a[1..], b, s);
    }
  }

  /** `x + k·y`, value by value. */
  lemma PlusScaled(x: Form, y: Form, k: int, s: Assignment)
    ensures Sum(Plus(x, ScaleBy(y, k)), s) == Sum(x, s) + k * Sum(y, s)
  {
    SumAppend(x.terms, Scaled(y.terms, k), s);
    SumScaled(y.terms, k, s);
    TimesSum(k, y.constant, SumTerms(y.terms, s));
  }

  lemma TimesSum(k: int, a: int, b: int)
    ensures k * (a + b) == a * k + k * b
  {
  }

  /** Which operand is the constant `k`, and the other. */
  function OneConstant(a: Form, b: Form): Option<(int, Form)> {
    if IsConstant(a) then Some((a.constant, b)) else if IsConstant(b) then Some((b.constant, a)) else None
  }

  function BitsFolds(p: Prime, outs: seq<nat>, x: Form): (r: seq<(nat, Form)>)
    ensures |r| == |outs|
    ensures forall i :: 0 <= i < |outs| ==> r[i] == (outs[i], CanonicalLc(p, Constant(p, BitAt(x.constant, i))))
  {
    seq(|outs|, i requires 0 <= i < |outs| => (outs[i], CanonicalLc(p, Constant(p, BitAt(x.constant, i)))))
  }

  /** What a hint computes when it is a constant or affine: each variable with its combination. */
  function AffineValue(p: Prime, h: Hint): Option<seq<(nat, Form)>> {
    match h
    case Bit(out, x, i) =>
      if IsConstant(x) then Some([(out, CanonicalLc(p, Constant(p, BitAt(x.constant, i))))]) else None
    case Bits(outs, x) => if IsConstant(x) then Some(BitsFolds(p, outs, x)) else None
    case Xor(out, a, b) =>
      (match OneConstant(a, b)
       case Some((k, x)) => Some([(out, CanonicalLc(p, Plus(Constant(p, k), ScaleBy(x, 1 - 2 * k))))])
       case None => None)
    case Or(out, a, b) =>
      (match OneConstant(a, b)
       case Some((k, x)) => Some([(out, CanonicalLc(p, Plus(Constant(p, k), ScaleBy(x, 1 - k))))])
       case None => None)
    case Product(out, a, b) =>
      (match OneConstant(a, b)
       case Some((k, x)) => Some([(out, CanonicalLc(p, ScaleBy(x, k)))])
       case None => None)
    case Other(_, _, _) => None
  }

  ghost predicate FoldHolds(p: Prime, fold: (nat, Form), s: Assignment) {
    Cong(p, s(fold.0), Sum(fold.1, s))
  }

  ghost predicate FoldsHold(p: Prime, folds: seq<(nat, Form)>, s: Assignment) {
    forall i :: 0 <= i < |folds| ==> FoldHolds(p, folds[i], s)
  }

  lemma ConstantFold(p: Prime, out: nat, c: int, s: Assignment)
    ensures FoldHolds(p, (out, CanonicalLc(p, Constant(p, c))), s) <==> Cong(p, s(out), c)
  {
    CanonicalSum(p, Constant(p, c), s);
    CongMod(p, c);
  }

  lemma LineFold(p: Prime, out: nat, k: int, x: Form, slope: int, s: Assignment)
    ensures FoldHolds(p, (out, CanonicalLc(p, Plus(Constant(p, k), ScaleBy(x, slope)))), s) <==>
      Cong(p, s(out), Line(k, slope, Sum(x, s)))
  {
    CanonicalSum(p, Plus(Constant(p, k), ScaleBy(x, slope)), s);
    PlusScaled(Constant(p, k), x, slope, s);
    CongMod(p, k);
    CongAdd(p, k % p, k, slope * Sum(x, s), slope * Sum(x, s));
  }

  lemma ScaleFold(p: Prime, out: nat, k: int, x: Form, s: Assignment)
    ensures FoldHolds(p, (out, CanonicalLc(p, ScaleBy(x, k))), s) <==> Cong(p, s(out), k * Sum(x, s))
  {
    CanonicalSum(p, ScaleBy(x, k), s);
    PlusScaled(Form(0, []), x, k, s);
    assert [] + Scaled(x.terms, k) == Scaled(x.terms, k);
    assert Plus(Form(0, []), ScaleBy(x, k)) == ScaleBy(x, k);
  }

  lemma GateLine(k: int, x: int, a: int, b: int)
    requires (a == k && b == x) || (b == k && a == x)
    ensures Line(k, 1 - 2 * k, x) == XorOf(a, b) && Line(k, 1 - k, x) == OrOf(a, b) && k * x == a * b
  {
  }

  /** An affine hint computes exactly its folds. */
  lemma AffineValueIsHint(p: Prime, h: Hint, s: Assignment)
    requires AffineValue(p, h).Some? && forall x :: x in Ins(h) ==> Reduced(p, x)
    ensures FoldsHold(p, AffineValue(p, h).value, s) <==> HintHolds(p, h, s)
  {
    hide Reduced, CanonicalLc, FoldsHold, FoldHolds, HintHolds, Sum, BitAt;
    match h
    case Bit(out, x, i) =>
      ConstantInput(p, x, s) by { assert x in Ins(h); }
      BitIsFold(p, out, x, i, s);
    case Bits(outs, x) =>
      ConstantInput(p, x, s) by { assert x in Ins(h); }
      BitsAreFolds(p, outs, x, s);
    case Xor(out, a, b) => XorIsFold(p, out, a, b, s);
    case Or(out, a, b) => OrIsFold(p, out, a, b, s);
    case Product(out, a, b) => ProductIsFold(p, out, a, b, s);
  }

  lemma OneFold(p: Prime, fold: (nat, Form), s: Assignment)
    ensures FoldsHold(p, [fold], s) <==> FoldHolds(p, fold, s)
  {
    assert FoldHolds(p, [fold][0], s) <==> FoldHolds(p, fold, s);
  }

  lemma BitIsFold(p: Prime, out: nat, x: Form, i: nat, s: Assignment)
    requires Sum(x, s) % p == x.constant && IsConstant(x)
    ensures FoldsHold(p, AffineValue(p, Bit(out, x, i)).value, s) <==> HintHolds(p, Bit(out, x, i), s)
  {
    hide CanonicalLc, Constant, FoldsHold, FoldHolds, BitAt;
    ConstantFold(p, out, BitAt(x.constant, i), s);
    OneFold(p, (out, CanonicalLc(p, Constant(p, BitAt(x.constant, i)))), s);
  }

  lemma XorIsFold(p: Prime, out: nat, a: Form, b: Form, s: Assignment)
    requires OneConstant(a, b).Some?
    ensures FoldsHold(p, AffineValue(p, Xor(out, a, b)).value, s) <==> HintHolds(p, Xor(out, a, b), s)
  {
    var (k, x) := OneConstant(a, b).value;
    ConstantOperand(p, a, b, s);
    hide CanonicalLc, Constant, FoldsHold, FoldHolds, Plus, ScaleBy, Sum, XorOf, OrOf, Line;
    GateLine(k, Sum(x, s), Sum(a, s), Sum(b, s));
    LineFold(p, out, k, x, 1 - 2 * k, s);
    OneFold(p, (out, CanonicalLc(p, Plus(Constant(p, k), ScaleBy(x, 1 - 2 * k)))), s);
  }

  lemma OrIsFold(p: Prime, out: nat, a: Form, b: Form, s: Assignment)
    requires OneConstant(a, b).Some?
    ensures FoldsHold(p, AffineValue(p, Or(out, a, b)).value, s) <==> HintHolds(p, Or(out, a, b), s)
  {
    var (k, x) := OneConstant(a, b).value;
    ConstantOperand(p, a, b, s);
    hide CanonicalLc, Constant, FoldsHold, FoldHolds, Plus, ScaleBy, Sum, XorOf, OrOf, Line;
    GateLine(k, Sum(x, s), Sum(a, s), Sum(b, s));
    LineFold(p, out, k, x, 1 - k, s);
    OneFold(p, (out, CanonicalLc(p, Plus(Constant(p, k), ScaleBy(x, 1 - k)))), s);
  }

  lemma ProductIsFold(p: Prime, out: nat, a: Form, b: Form, s: Assignment)
    requires OneConstant(a, b).Some?
    ensures FoldsHold(p, AffineValue(p, Product(out, a, b)).value, s) <==> HintHolds(p, Product(out, a, b), s)
  {
    var (k, x) := OneConstant(a, b).value;
    ConstantOperand(p, a, b, s);
    hide CanonicalLc, FoldsHold, FoldHolds, ScaleBy, Sum;
    GateLine(k, Sum(x, s), Sum(a, s), Sum(b, s));
    ScaleFold(p, out, k, x, s);
    OneFold(p, (out, CanonicalLc(p, ScaleBy(x, k))), s);
  }

  lemma ConstantInput(p: Prime, x: Form, s: Assignment)
    requires IsConstant(x) && Reduced(p, x)
    ensures Sum(x, s) % p == x.constant
  {
    ModSmall(x.constant, p);
  }

  lemma ConstantOperand(p: Prime, a: Form, b: Form, s: Assignment)
    requires OneConstant(a, b).Some?
    ensures var (k, x) := OneConstant(a, b).value;
      (Sum(a, s) == k && x == b) || (Sum(b, s) == k && x == a)
  {
  }

  lemma BitsAreFolds(p: Prime, outs: seq<nat>, x: Form, s: Assignment)
    requires Sum(x, s) % p == x.constant
    ensures FoldsHold(p, BitsFolds(p, outs, x), s) <==> HintHolds(p, Bits(outs, x), s)
  {
    hide CanonicalLc, Constant;
    var folds := BitsFolds(p, outs, x);
    forall i | 0 <= i < |outs|
      ensures FoldHolds(p, folds[i], s) <==> BitIs(p, outs[i], x, i, s)
    {
      ConstantFold(p, outs[i], BitAt(x.constant, i), s);
    }
    if FoldsHold(p, folds, s) {
      forall i | 0 <= i < |outs|
        ensures BitIs(p, outs[i], x, i, s)
      {
        assert FoldHolds(p, folds[i], s);
      }
    }
  }

  /** Whether a row holds everywhere, nowhere because it is closed and false, or cannot tell. */
  datatype Validity = Always | Never | Open

  function RowValidity(p: Prime, r: GadgetRow): Validity {
    if IsConstant(r.a) then LineValidity(p, r.a.constant, r.b, r.c)
    else if IsConstant(r.b) then LineValidity(p, r.b.constant, r.a, r.c)
    else Open
  }

  function LineValidity(p: Prime, k: int, x: Form, c: Form): Validity {
    var d := CanonicalLc(p, Plus(ScaleBy(x, k), ScaleBy(c, -1)));
    if d.terms != [] then Open else if d.constant == 0 then Always else Never
  }

  lemma LineValidityHolds(p: Prime, k: int, x: Form, c: Form, s: Assignment)
    ensures LineValidity(p, k, x, c) == Always ==> Cong(p, k * Sum(x, s), Sum(c, s))
    ensures LineValidity(p, k, x, c) == Never ==> !Cong(p, k * Sum(x, s), Sum(c, s))
  {
    var d := Plus(ScaleBy(x, k), ScaleBy(c, -1));
    CanonicalSum(p, d, s);
    CanonicalReduced(p, d);
    LineSum(x, k, c, s);
    CongIff(p, k * Sum(x, s), Sum(c, s));
    ModSmall(CanonicalLc(p, d).constant, p);
  }

  /** The linear check is right. */
  lemma RowValidityHolds(p: Prime, r: GadgetRow, s: Assignment)
    ensures RowValidity(p, r) == Always ==> RowHolds(p, r, s)
    ensures RowValidity(p, r) == Never ==> !RowHolds(p, r, s)
  {
    hide LineValidity;
    if IsConstant(r.a) {
      LineValidityHolds(p, r.a.constant, r.b, r.c, s);
    } else if IsConstant(r.b) {
      LineValidityHolds(p, r.b.constant, r.a, r.c, s);
      assert r.b.constant * Sum(r.a, s) == Sum(r.a, s) * r.b.constant;
    }
  }

  /** A row that holds everywhere is found to. */
  lemma AlwaysIsFound(p: Prime, k: int, x: Form, c: Form)
    requires forall s: Assignment :: Cong(p, k * Sum(x, s), Sum(c, s))
    ensures LineValidity(p, k, x, c) == Always
  {
    var d := Plus(ScaleBy(x, k), ScaleBy(c, -1));
    forall s: Assignment
      ensures SameValue(p, d, Form(0, []), s)
    {
      AlwaysZero(p, k, x, c, s);
    }
    hide Cong, Sum, SameValue, IsPrime;
    CanonicalIffSame(p, d, Form(0, []));
    assert Canonical([]);
    assert CanonicalLc(p, Form(0, [])) == Form(0, []);
  }

  lemma AlwaysZero(p: Prime, k: int, x: Form, c: Form, s: Assignment)
    requires Cong(p, k * Sum(x, s), Sum(c, s))
    ensures SameValue(p, Plus(ScaleBy(x, k), ScaleBy(c, -1)), Form(0, []), s)
  {
    hide IsPrime;
    LineSum(x, k, c, s);
    CongIff(p, k * Sum(x, s), Sum(c, s));
  }

  lemma LineSum(x: Form, k: int, c: Form, s: Assignment)
    ensures Sum(Plus(ScaleBy(x, k), ScaleBy(c, -1)), s) == k * Sum(x, s) - Sum(c, s)
  {
    PlusScaled(ScaleBy(x, k), c, -1, s);
    PlusScaled(Form(0, []), x, k, s);
    assert [] + Scaled(x.terms, k) == Scaled(x.terms, k);
    assert Plus(Form(0, []), ScaleBy(x, k)) == ScaleBy(x, k);
  }
}
