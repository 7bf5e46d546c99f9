/**
 * Constraint systems: rows `a · b = c` over a prime field, witness hints, and the products whose row was
 * rewritten into an equality.
 */
module Circuits {
  import opened Words
  import opened Fields
  import opened Linear

  /** The row `a · b = c`. */
  datatype Row = Row(a: Lc, b: Lc, c: Lc)

  function EqualRow(lhs: Lc, rhs: Lc): Row {
    Row(Sub(lhs, rhs), Const(1), Const(0))
  }

  ghost predicate Holds(p: Prime, row: Row, s: Assignment) {
    Cong(p, Eval(row.a, s) * Eval(row.b, s), Eval(row.c, s))
  }

  /** How the solver computes a variable from earlier ones. */
  datatype Gen =
    | LinearOp(out: nat, lc: Lc)
    | Product(out: nat, left: Lc, right: Lc)
    | Xor(out: nat, a: Lc, b: Lc)
    | Or(out: nat, a: Lc, b: Lc)
    | Bit(out: nat, input: Lc, index: nat)
    | IsZeroInverse(out: nat, input: Lc)
    | DivRem(out: nat, r: nat, num: Lc, den: Lc)

  /** The variables of `g` have the values its hint computes. */
  ghost predicate AsHinted(p: Prime, g: Gen, s: Assignment) {
    match g
    case LinearOp(out, lc) => Cong(p, s(out), Eval(lc, s))
    case Product(out, l, r) => Cong(p, s(out), Eval(l, s) * Eval(r, s))
    case Xor(out, a, b) => Cong(p, s(out), Eval(a, s) + Eval(b, s) - 2 * Eval(a, s) * Eval(b, s))
    case Or(out, a, b) => Cong(p, s(out), Eval(a, s) + Eval(b, s) - Eval(a, s) * Eval(b, s))
    case Bit(out, x, i) => s(out) % p == BitOf(Value(p, x, s), i)
    case IsZeroInverse(out, x) => s(out) % p == InverseOrZero(p, Eval(x, s))
    case DivRem(q, r, num, den) =>
      var (x, y) := (Value(p, num, s), Value(p, den, s));
      y != 0 && s(q) % p == x / y && s(r) % p == x % y
  }

  function BitOf(x: nat, i: nat): (r: nat)
    ensures r <= 1
  {
    x / Pow2(i) % 2
  }

  /** What a builder has emitted: variables `0..next`, rows, hints (a product's stays open until the end, at
      `deferred[slot] == (row, out)`), and the products merged into an equality, `out` to `(slot, row)`. */
  datatype Circuit = Circuit(next: nat, rows: seq<Row>, merged: map<nat, (nat, nat)>, gens: seq<Option<Gen>>,
                             deferred: map<nat, (nat, nat)>)

  ghost predicate RowBelow(row: Row, n: nat) {
    Below(row.a, n) && Below(row.b, n) && Below(row.c, n)
  }

  /** `g` defines variables from `lo` up and below `hi`, and reads variables below `lo`. */
  ghost predicate Spans(g: Gen, lo: nat, hi: nat) {
    && lo <= g.out < hi
    && match g
       case LinearOp(_, x) => Below(x, lo)
       case Product(_, a, b) => Below(a, lo) && Below(b, lo)
       case Xor(_, a, b) => Below(a, lo) && Below(b, lo)
       case Or(_, a, b) => Below(a, lo) && Below(b, lo)
       case Bit(_, x, _) => Below(x, lo)
       case IsZeroInverse(_, x) => Below(x, lo)
       case DivRem(q, r, x, y) => q < r < hi && Below(x, lo) && Below(y, lo)
  }

  /** The hint of product `v` is still open, in `slot`. */
  ghost predicate Owns(c: Circuit, v: nat, slot: nat, row: nat) {
    slot in c.deferred && c.deferred[slot] == (row, v)
  }

  ghost predicate Indexed(c: Circuit) {
    && (forall i :: 0 <= i < |c.rows| ==> RowBelow(c.rows[i], c.next))
    && (forall v :: v in c.merged ==>
      v < c.next && c.merged[v].1 < |c.rows| && Owns(c, v, c.merged[v].0, c.merged[v].1))
    && (forall k :: k in c.deferred ==> k < |c.gens| && c.gens[k] == None && c.deferred[k].0 < |c.rows|)
    && (forall i :: 0 <= i < |c.gens| && c.gens[i] == None ==> i in c.deferred)
  }

  /** The hint in slot `i`. */
  ghost function HintAt(c: Circuit, i: nat): Gen
    requires Indexed(c) && i < |c.gens|
  {
    match c.gens[i]
    case Some(g) => g
    case None => var (row, out) := c.deferred[i]; Product(out, c.rows[row].a, c.rows[row].b)
  }

  function LastOut(g: Gen): nat {
    if g.DivRem? then g.r else g.out
  }

  /** Hints come in the order of the variables they define, each reading only earlier variables. */
  ghost predicate Ordered(c: Circuit)
    requires Indexed(c)
  {
    && (forall i :: 0 <= i < |c.gens| ==> Spans(HintAt(c, i), HintAt(c, i).out, c.next))
    && (forall i, j :: 0 <= i < j < |c.gens| ==> LastOut(HintAt(c, i)) < HintAt(c, j).out)
  }

  ghost predicate Shaped(c: Circuit) {
    Indexed(c) && Ordered(c)
  }

  ghost predicate MergedHolds(p: Prime, c: Circuit, v: nat, s: Assignment)
    requires Indexed(c) && v in c.merged
  {
    var row := c.rows[c.merged[v].1];
    Cong(p, Eval(row.a, s) * Eval(row.b, s), s(v))
  }

  /** `s` satisfies every row, and every merged product as if it had its row. */
  ghost predicate Meets(p: Prime, c: Circuit, s: Assignment)
    requires Indexed(c)
  {
    && (forall i :: 0 <= i < |c.rows| ==> Holds(p, c.rows[i], s))
    && (forall v :: v in c.merged ==> MergedHolds(p, c, v, s))
  }

  /** The variables hinted from slot `from` on have the values the solver gives them. */
  ghost predicate Hinted(p: Prime, c: Circuit, from: nat, s: Assignment)
    requires Indexed(c)
  {
    forall i :: from <= i < |c.gens| ==> AsHinted(p, HintAt(c, i), s)
  }

  /** The first variable slot `i` defines. */
  function OutAt(c: Circuit, i: nat): nat
    requires i < |c.gens|
  {
    match c.gens[i]
    case Some(g) => g.out
    case None => if i in c.deferred then c.deferred[i].1 else 0
  }

  /** `c1` only adds to `c0`: rows keep their operands, hints stay, new hints define new variables. */
  ghost predicate Extends(c0: Circuit, c1: Circuit) {
    && c0.next <= c1.next && |c0.rows| <= |c1.rows| && c0.gens <= c1.gens
    && (forall i :: 0 <= i < |c0.rows| ==> c1.rows[i].a == c0.rows[i].a && c1.rows[i].b == c0.rows[i].b)
    && (forall k :: k in c0.deferred ==> k in c1.deferred && c1.deferred[k] == c0.deferred[k])
    && (forall i :: |c0.gens| <= i < |c1.gens| ==> c0.next <= OutAt(c1, i))
  }

  lemma ExtendsTrans(c0: Circuit, c1: Circuit, c2: Circuit)
    requires Extends(c0, c1) && Extends(c1, c2)
    ensures Extends(c0, c2)
  {
    forall i | |c0.gens| <= i < |c2.gens|
      ensures c0.next <= OutAt(c2, i)
    {
      if i < |c1.gens| {
        assert c2.gens[i] == c1.gens[i] && c0.next <= OutAt(c1, i);
      }
    }
  }

  /** No hint added since `c0` divides, so each can be run. */
  ghost predicate NoDivision(c0: Circuit, c1: Circuit) {
    forall i :: |c0.gens| <= i < |c1.gens| ==> c1.gens[i].None? || !c1.gens[i].value.DivRem?
  }

  lemma NoDivisionTrans(c0: Circuit, c1: Circuit, c2: Circuit)
    requires Extends(c0, c1) && Extends(c1, c2) && NoDivision(c0, c1) && NoDivision(c1, c2)
    ensures Extends(c0, c2) && NoDivision(c0, c2)
  {
    ExtendsTrans(c0, c1, c2);
    forall i | |c0.gens| <= i < |c1.gens|
      ensures c2.gens[i] == c1.gens[i]
    {
    }
  }

  lemma HintStays(c0: Circuit, c1: Circuit, i: nat)
    requires Indexed(c0) && Indexed(c1) && Extends(c0, c1) && i < |c0.gens|
    ensures HintAt(c1, i) == HintAt(c0, i)
  {
    assert c1.gens[i] == c0.gens[i];
  }

  /** Hints added in two steps. */
  lemma HintedSplit(p: Prime, c0: Circuit, c1: Circuit, c2: Circuit, s: Assignment)
    requires Indexed(c0) && Indexed(c1) && Indexed(c2) && Extends(c0, c1) && Extends(c1, c2)
    ensures Hinted(p, c2, |c0.gens|, s) <==> Hinted(p, c1, |c0.gens|, s) && Hinted(p, c2, |c1.gens|, s)
  {
    forall i | |c0.gens| <= i < |c1.gens|
      ensures HintAt(c2, i) == HintAt(c1, i)
    {
      HintStays(c1, c2, i);
    }
    if Hinted(p, c2, |c0.gens|, s) {
      forall i | |c0.gens| <= i < |c1.gens|
        ensures AsHinted(p, HintAt(c1, i), s)
      {
        assert HintAt(c2, i) == HintAt(c1, i);
      }
    }
  }

  // ----- rows -----

  lemma BooleanRoots(p: Prime, x: int)
    ensures Divides(p, x * (x - 1)) <==> x % p <= 1
  {
    ZeroProduct(p, x, x - 1);
    CongIff(p, x, 1);
    ModSmall(1, p);
  }

  /** `v · v = v` says that `v` is a bit. */
  lemma BooleanRow(p: Prime, v: nat, s: Assignment)
    ensures Holds(p, Row(Var(v), Var(v), Var(v)), s) <==> s(v) % p <= 1
  {
    var x := s(v);
    CongIff(p, x * x, x);
    assert x * x - x == x * (x - 1);
    BooleanRoots(p, x);
  }

  lemma BooleanForm(p: Prime, x: Lc, s: Assignment)
    ensures Holds(p, Row(x, Sub(x, Const(1)), Const(0)), s) <==> Value(p, x, s) <= 1
  {
    BooleanRoots(p, Eval(x, s));
    assert Cong(p, Eval(x, s) * (Eval(x, s) - 1), 0) <==> Divides(p, Eval(x, s) * (Eval(x, s) - 1));
  }

  lemma EqualRowHolds(p: Prime, x: Lc, y: Lc, s: Assignment)
    ensures Holds(p, EqualRow(x, y), s) <==> Value(p, x, s) == Value(p, y, s)
  {
    CongIff(p, Eval(x, s), Eval(y, s));
    assert Eval(EqualRow(x, y).a, s) * 1 == Eval(x, s) - Eval(y, s);
  }

  /** A gated equality binds where the gate is nonzero. */
  lemma GatedRowHolds(p: Prime, g: Lc, x: Lc, y: Lc, s: Assignment)
    ensures Holds(p, Row(g, Sub(x, y), Const(0)), s) <==> Value(p, g, s) == 0 || Value(p, x, s) == Value(p, y, s)
  {
    var (a, b) := (Eval(g, s), Eval(x, s) - Eval(y, s));
    CongIff(p, Eval(x, s), Eval(y, s));
    assert Holds(p, Row(g, Sub(x, y), Const(0)), s) <==> Divides(p, a * b);
    ZeroProduct(p, a, b);
  }

  // ----- the elementary steps -----

  function AddRow(c: Circuit, row: Row): Circuit {
    c.(rows := c.rows + [row])
  }

  lemma AddRowMeets(p: Prime, c: Circuit, row: Row)
    requires Shaped(c) && RowBelow(row, c.next)
    ensures Shaped(AddRow(c, row)) && Extends(c, AddRow(c, row))
    ensures forall s: Assignment :: Meets(p, AddRow(c, row), s) <==> Meets(p, c, s) && Holds(p, row, s)
    ensures forall s: Assignment :: Hinted(p, AddRow(c, row), |c.gens|, s)
  {
    hide IsPrime, Eval, Ordered, AsHinted;
    var d := AddRow(c, row);
    assert d.rows[|c.rows|] == row;
    forall i | 0 <= i < |c.rows|
      ensures d.rows[i] == c.rows[i]
    {
    }
    SameHints(c, d);
    forall s: Assignment
      ensures Meets(p, d, s) <==> Meets(p, c, s) && Holds(p, row, s)
    {
      if Meets(p, c, s) && Holds(p, row, s) {
        forall v | v in d.merged
          ensures MergedHolds(p, d, v, s)
        {
          assert MergedHolds(p, c, v, s);
        }
      }
      if Meets(p, d, s) {
        forall i | 0 <= i < |c.rows|
          ensures Holds(p, c.rows[i], s)
        {
          assert Holds(p, d.rows[i], s);
        }
        forall v | v in c.merged
          ensures MergedHolds(p, c, v, s)
        {
          assert MergedHolds(p, d, v, s);
        }
      }
    }
  }

  lemma SameHints(c: Circuit, d: Circuit)
    requires Shaped(c) && Indexed(d) && Extends(c, d) && |d.gens| == |c.gens|
    ensures Shaped(d)
  {
    forall i | 0 <= i < |c.gens|
      ensures HintAt(d, i) == HintAt(c, i) && Spans(HintAt(d, i), HintAt(d, i).out, d.next)
    {
      HintStays(c, d, i);
    }
  }

  function AddGen(c: Circuit, g: Gen): Circuit {
    c.(gens := c.gens + [Some(g)], next := LastOut(g) + 1)
  }

  /** A hint for new variables constrains nothing. */
  lemma AddGenMeets(p: Prime, c: Circuit, g: Gen)
    requires Shaped(c) && Spans(g, c.next, LastOut(g) + 1)
    ensures Shaped(AddGen(c, g)) && Extends(c, AddGen(c, g))
    ensures forall s: Assignment :: Meets(p, AddGen(c, g), s) <==> Meets(p, c, s)
    ensures forall s: Assignment :: Hinted(p, AddGen(c, g), |c.gens|, s) <==> AsHinted(p, g, s)
  {
    var d := AddGen(c, g);
    forall i | 0 <= i < |c.rows|
      ensures RowBelow(d.rows[i], d.next)
    {
      assert RowBelow(c.rows[i], c.next);
    }
    NewHint(c, d, g);
    forall s: Assignment
      ensures Meets(p, d, s) <==> Meets(p, c, s)
    {
      SameRows(p, c, d, s);
    }
  }

  /** One more hint, in a slot of its own. */
  lemma NewHint(c: Circuit, d: Circuit, g: Gen)
    requires Shaped(c) && Indexed(d) && Extends(c, d) && |d.gens| == |c.gens| + 1
    requires HintAt(d, |c.gens|) == g && Spans(g, c.next, d.next)
    ensures Shaped(d)
    ensures forall p: Prime, s: Assignment :: Hinted(p, d, |c.gens|, s) <==> AsHinted(p, g, s)
  {
    forall i | 0 <= i < |c.gens|
      ensures HintAt(d, i) == HintAt(c, i) && Spans(HintAt(d, i), HintAt(d, i).out, d.next)
      ensures LastOut(HintAt(d, i)) < c.next
    {
      HintStays(c, d, i);
    }
    forall p: Prime, s: Assignment | AsHinted(p, g, s)
      ensures Hinted(p, d, |c.gens|, s)
    {
      forall i | |c.gens| <= i < |d.gens|
        ensures AsHinted(p, HintAt(d, i), s)
      {
        assert i == |c.gens|;
      }
    }
    forall p: Prime, s: Assignment | Hinted(p, d, |c.gens|, s)
      ensures AsHinted(p, g, s)
    {
      assert AsHinted(p, HintAt(d, |c.gens|), s);
    }
  }

  lemma SameRows(p: Prime, c: Circuit, d: Circuit, s: Assignment)
    requires Indexed(c) && Indexed(d) && c.rows == d.rows && c.merged == d.merged
    ensures Meets(p, c, s) <==> Meets(p, d, s)
  {
    forall v | v in c.merged
      ensures MergedHolds(p, c, v, s) <==> MergedHolds(p, d, v, s)
    {
    }
  }

  function AddProduct(c: Circuit, l: Lc, r: Lc): Circuit {
    var out := c.next;
    c.(next := out + 1, rows := c.rows + [Row(l, r, Var(out))], gens := c.gens + [None],
       deferred := c.deferred[|c.gens| := (|c.rows|, out)])
  }

  lemma AddProductMeets(p: Prime, c: Circuit, l: Lc, r: Lc)
    requires Shaped(c) && Below(l, c.next) && Below(r, c.next)
    ensures var d := AddProduct(c, l, r); Shaped(d) && Extends(c, d)
    ensures forall s: Assignment :: Meets(p, AddProduct(c, l, r), s)
                                    <==> Meets(p, c, s) && Cong(p, s(c.next), Eval(l, s) * Eval(r, s))
    ensures forall s: Assignment :: Hinted(p, AddProduct(c, l, r), |c.gens|, s)
                                    <==> Cong(p, s(c.next), Eval(l, s) * Eval(r, s))
  {
    hide IsPrime, Eval, Ordered, Meets;
    var d := AddProduct(c, l, r);
    var row := Row(l, r, Var(c.next));
    assert d.rows[|c.rows|] == row;
    forall i | 0 <= i < |c.rows|
      ensures d.rows[i] == c.rows[i] && RowBelow(d.rows[i], d.next)
    {
      assert RowBelow(c.rows[i], c.next);
    }
    NewHint(c, d, Product(c.next, l, r));
    forall s: Assignment
      ensures Meets(p, d, s) <==> Meets(p, c, s) && Cong(p, s(c.next), Eval(l, s) * Eval(r, s))
    {
      AddProductMeetsAt(p, c, l, r, s);
    }
  }

  lemma AddProductMeetsAt(p: Prime, c: Circuit, l: Lc, r: Lc, s: Assignment)
    requires Indexed(c) && Indexed(AddProduct(c, l, r))
    ensures Meets(p, AddProduct(c, l, r), s) <==> Meets(p, c, s) && Cong(p, s(c.next), Eval(l, s) * Eval(r, s))
  {
    var d := AddProduct(c, l, r);
    assert d.rows[|c.rows|] == Row(l, r, Var(c.next));
    assert forall i :: 0 <= i < |c.rows| ==> d.rows[i] == c.rows[i];
    assert forall v :: v in c.merged ==> MergedHolds(p, c, v, s) == MergedHolds(p, d, v, s);
    if Meets(p, d, s) {
      assert Holds(p, d.rows[|c.rows|], s);
      forall i | 0 <= i < |c.rows|
        ensures Holds(p, c.rows[i], s)
      {
        assert Holds(p, d.rows[i], s);
      }
    }
  }

  function Merge(c: Circuit, v: nat, slot: nat, row: nat, target: Lc): Circuit
    requires row < |c.rows|
  {
    c.(rows := c.rows[row := c.rows[row].(c := target)], merged := c.merged[v := (slot, row)])
  }

  /** Rewriting `a · b = v` into `a · b = target`, with the product still standing for `v`, requires that
      they are equal. */
  lemma MergeMeets(p: Prime, c: Circuit, v: nat, slot: nat, row: nat, target: Lc)
    requires Shaped(c) && v < c.next && Owns(c, v, slot, row) && row < |c.rows| && Below(target, c.next)
    requires c.rows[row].c == Var(v) && v !in c.merged
    ensures var d := Merge(c, v, slot, row, target); Shaped(d) && Extends(c, d)
    ensures forall s: Assignment :: Meets(p, Merge(c, v, slot, row, target), s)
                                    <==> Meets(p, c, s) && s(v) % p == Value(p, target, s)
    ensures forall s: Assignment :: Hinted(p, Merge(c, v, slot, row, target), |c.gens|, s)
  {
    var d := Merge(c, v, slot, row, target);
    forall i | 0 <= i < |d.rows|
      ensures RowBelow(d.rows[i], d.next)
    {
      assert RowBelow(c.rows[i], c.next);
    }
    SameHints(c, d);
    forall s: Assignment
      ensures Meets(p, d, s) <==> Meets(p, c, s) && s(v) % p == Value(p, target, s)
    {
      MergeMeetsAt(p, c, v, slot, row, target, s);
    }
  }

  lemma MergeMeetsAt(p: Prime, c: Circuit, v: nat, slot: nat, row: nat, target: Lc, s: Assignment)
    requires Indexed(c) && row < |c.rows| && Indexed(Merge(c, v, slot, row, target))
    requires c.rows[row].c == Var(v) && v !in c.merged
    ensures Meets(p, Merge(c, v, slot, row, target), s) <==> Meets(p, c, s) && s(v) % p == Value(p, target, s)
  {
    hide Value;
    var d := Merge(c, v, slot, row, target);
    var (l, r, q) := (Eval(c.rows[row].a, s), Eval(c.rows[row].b, s), Eval(target, s));
    assert Holds(p, c.rows[row], s) <==> Cong(p, l * r, s(v));
    assert Holds(p, d.rows[row], s) <==> Cong(p, l * r, q);
    assert MergedHolds(p, d, v, s) <==> Cong(p, l * r, s(v));
    assert s(v) % p == Value(p, target, s) <==> Cong(p, s(v), q) by { ValueIs(p, target, s); }
    MergeKeeps(p, c, v, slot, row, target, s);
  }

  lemma ValueIs(p: Prime, x: Lc, s: Assignment)
    ensures Value(p, x, s) == Eval(x, s) % p
  {
  }

  /** All but the merged row and product. */
  ghost predicate Rest(p: Prime, c: Circuit, v: nat, row: nat, s: Assignment)
    requires Indexed(c)
  {
    && (forall i :: 0 <= i < |c.rows| && i != row ==> Holds(p, c.rows[i], s))
    && (forall u :: u in c.merged && u != v ==> MergedHolds(p, c, u, s))
  }

  lemma MergeKeeps(p: Prime, c: Circuit, v: nat, slot: nat, row: nat, target: Lc, s: Assignment)
    requires Indexed(c) && row < |c.rows| && Indexed(Merge(c, v, slot, row, target)) && v !in c.merged
    ensures var d := Merge(c, v, slot, row, target);
      && (Meets(p, c, s) <==> Rest(p, c, v, row, s) && Holds(p, c.rows[row], s))
      && (Meets(p, d, s) <==> Rest(p, c, v, row, s) && Holds(p, d.rows[row], s) && MergedHolds(p, d, v, s))
  {
    hide Holds;
    var d := Merge(c, v, slot, row, target);
    assert forall i :: 0 <= i < |c.rows| && i != row ==> d.rows[i] == c.rows[i];
    assert forall u :: u in c.merged ==> u in d.merged && MergedHolds(p, c, u, s) == MergedHolds(p, d, u, s);
    assert Meets(p, d, s) <==> Rest(p, d, v, row, s) && Holds(p, d.rows[row], s) && MergedHolds(p, d, v, s);
    RestSame(p, c, v, slot, row, target, s);
  }

  lemma RestSame(p: Prime, c: Circuit, v: nat, slot: nat, row: nat, target: Lc, s: Assignment)
    requires Indexed(c) && row < |c.rows| && Indexed(Merge(c, v, slot, row, target)) && v !in c.merged
    ensures Rest(p, Merge(c, v, slot, row, target), v, row, s) <==> Rest(p, c, v, row, s)
  {
    hide Holds;
    var d := Merge(c, v, slot, row, target);
    forall i | 0 <= i < |c.rows| && i != row
      ensures d.rows[i] == c.rows[i]
    {
    }
    forall u | u in c.merged
      ensures u in d.merged && u != v && MergedHolds(p, c, u, s) == MergedHolds(p, d, u, s)
    {
    }
  }

  // ----- growth -----

  /** At `s`, the step from `c0` to `c1` adds the hinted values of its new variables, and `cond`; no more, no less. So
      the new variables have at most one satisfying value, the solver's; that there is one is `Solving.Completes`. */
  ghost predicate AddsAt(p: Prime, c0: Circuit, c1: Circuit, s: Assignment, cond: bool)
    requires Indexed(c0) && Indexed(c1)
  {
    Meets(p, c1, s) <==> Meets(p, c0, s) && Hinted(p, c1, |c0.gens|, s) && cond
  }

  lemma AddsTrans(p: Prime, c0: Circuit, c1: Circuit, c2: Circuit, s: Assignment, k1: bool, k2: bool)
    requires Indexed(c0) && Indexed(c1) && Indexed(c2) && Extends(c0, c1) && Extends(c1, c2)
    requires AddsAt(p, c0, c1, s, k1) && AddsAt(p, c1, c2, s, k2)
    ensures Extends(c0, c2) && AddsAt(p, c0, c2, s, k1 && k2)
  {
    hide Indexed, Meets, Hinted, Extends;
    ExtendsTrans(c0, c1, c2);
    HintedSplit(p, c0, c1, c2, s);
  }

  /** The second condition may be put in terms of what the first step established. */
  lemma AddsThen(p: Prime, c0: Circuit, c1: Circuit, c2: Circuit, s: Assignment, k1: bool, k2: bool, k: bool)
    requires Indexed(c0) && Indexed(c1) && Indexed(c2) && Extends(c0, c1) && Extends(c1, c2)
    requires AddsAt(p, c0, c1, s, k1) && AddsAt(p, c1, c2, s, k2)
    requires Meets(p, c1, s) ==> (k <==> k2)
    ensures Extends(c0, c2) && AddsAt(p, c0, c2, s, k1 && k)
  {
    hide Indexed, Meets, Hinted, Extends;
    ExtendsTrans(c0, c1, c2);
    HintedSplit(p, c0, c1, c2, s);
  }

  lemma AddsNothing(p: Prime, c: Circuit)
    requires Indexed(c)
    ensures Extends(c, c) && forall s: Assignment :: AddsAt(p, c, c, s, true)
  {
  }

  ghost predicate Tightens(p: Prime, c0: Circuit, c1: Circuit)
    requires Indexed(c0) && Indexed(c1)
  {
    forall s: Assignment :: Meets(p, c1, s) ==> Meets(p, c0, s)
  }

  /** `x` is 0 or 1 in every solution. */
  ghost predicate IsBit(p: Prime, c: Circuit, x: Lc)
    requires Indexed(c)
  {
    forall s: Assignment :: Meets(p, c, s) ==> Value(p, x, s) <= 1
  }

  // ----- what a builder remembers -----

  /** `pending[v] == (row, slot)`: products that may still be merged. `products`: constrained products by
      operand hash, as `(out, row)`. `booleans`: proven bits. `computed`: decompositions by top bit. */
  datatype Caches = Caches(pending: map<nat, (nat, nat)>, products: map<(nat, nat), (nat, nat)>, booleans: set<nat>,
                           computed: map<nat, seq<Lc>>)

  ghost predicate OkPending(c: Circuit, v: nat, row: nat, slot: nat) {
    v < c.next && v !in c.merged && Owns(c, v, slot, row) && row < |c.rows| && c.rows[row].c == Var(v)
  }

  /** The last term of `x` is a negative multiple of `top`. */
  predicate EndsIn(x: Lc, top: nat) {
    x.terms != [] && x.terms[|x.terms| - 1].v == top && x.terms[|x.terms| - 1].coeff < 0
  }

  /** A constant among `bits` is written 0 or 1. */
  predicate PlainBits(bits: seq<Lc>) {
    forall i :: 0 <= i < |bits| && IsConst(bits[i]) ==> bits[i].constant == 0 || bits[i].constant == 1
  }

  ghost predicate OkBits(p: Prime, c: Circuit, top: nat, bits: seq<Lc>)
    requires Indexed(c)
  {
    && |bits| >= 2 && EndsIn(bits[0], top) && PlainBits(bits)
    && forall i :: 0 <= i < |bits| ==> Below(bits[i], c.next) && IsBit(p, c, bits[i])
  }

  ghost predicate OkCaches(p: Prime, c: Circuit, k: Caches)
    requires Indexed(c)
  {
    && (forall v :: v in k.pending ==> OkPending(c, v, k.pending[v].0, k.pending[v].1))
    && (forall h :: h in k.products ==> k.products[h].0 < c.next && k.products[h].1 < |c.rows|)
    && (forall v :: v in k.booleans ==> v < c.next && IsBit(p, c, Var(v)))
    && (forall v :: v in k.computed ==> OkBits(p, c, v, k.computed[v]))
  }

  lemma CachesStay(p: Prime, c0: Circuit, c1: Circuit, k: Caches)
    requires Indexed(c0) && Indexed(c1) && Extends(c0, c1) && Tightens(p, c0, c1) && OkCaches(p, c0, k)
    requires forall v :: v in k.pending ==> OkPending(c1, v, k.pending[v].0, k.pending[v].1)
    ensures OkCaches(p, c1, k)
  {
    forall x: Lc | IsBit(p, c0, x)
      ensures IsBit(p, c1, x)
    {
    }
    forall v | v in k.computed
      ensures OkBits(p, c1, v, k.computed[v])
    {
      assert OkBits(p, c0, v, k.computed[v]);
    }
  }
}
