/**
 * The constraint builder. It reuses a product it already constrained, and folds a product into a later
 * equality by rewriting the product's row; it remembers which variables are proven bits.
 */
module Builder {
  import opened Words
  import opened Fields
  import opened Linear
  import opened Circuits
  import opened Solving
  import opened Bits

  class Builder {
    const p: Prime
    /** The key of the table of products: any function of the operands will do. */
    const hash: Lc -> nat
    /** Reuse repeated products. */
    const cse: bool
    /** Name operands with more terms than this. */
    const threshold: nat

    var next: nat
    var rows: seq<Row>
    var merged: map<nat, (nat, nat)>
    var gens: seq<Option<Gen>>
    var deferred: map<nat, (nat, nat)>
    var pending: map<nat, (nat, nat)>
    var products: map<(nat, nat), (nat, nat)>
    var booleans: set<nat>
    var computed: map<nat, seq<Lc>>

    constructor (p: Prime, hash: Lc -> nat, cse: bool, threshold: nat)
      requires p > Pow2(253)
      ensures Valid() && this.p == p && this.cse == cse && Snap() == Circuit(0, [], map[], [], map[])
    {
      this.p, this.hash, this.cse, this.threshold := p, hash, cse, threshold;
      next, rows, merged, gens, deferred := 0, [], map[], [], map[];
      pending, products, booleans, computed := map[], map[], {}, map[];
    }

    ghost function Snap(): Circuit
      reads this
    {
      Circuit(next, rows, merged, gens, deferred)
    }

    ghost function Memory(): Caches
      reads this
    {
      Caches(pending, products, booleans, computed)
    }

    ghost predicate Valid()
      reads this
    {
      p > Pow2(253) && Shaped(Snap()) && OkCaches(p, Snap(), Memory())
    }

    // ----- pending products -----

    function AsPending(x: Lc): (r: Option<nat>)
      reads this
      ensures r.Some? ==> r.value in pending && x == Var(r.value)
    {
      if x.constant == 0 && |x.terms| == 1 && x.terms[0].coeff == 1 && x.terms[0].v in pending
      then assert x.terms == [Term(1, x.terms[0].v)]; Some(x.terms[0].v) else None
    }

    /** A product used as a value can no longer be merged. */
    method ConsumePending(x: Lc)
      requires Valid()
      modifies this`pending
      ensures Valid() && pending == match old(AsPending(x)) case Some(v) => old(pending) - {v} case None => old(pending)
    {
      hide Ordered, Indexed, Eval, Meets, Pow2, IsPrime, IsBit, OkBits;
      match AsPending(x) {
        case Some(v) => pending := pending - {v};
        case None =>
      }
    }

    // ----- rows and hints -----

    static function BooleanityVar(row: Row): (r: Option<nat>)
      ensures r.Some? ==> row == Row(Var(r.value), Var(r.value), Var(r.value))
    {
      if row.a.terms != [] && row == Row(Var(row.a.terms[0].v), Var(row.a.terms[0].v), Var(row.a.terms[0].v))
      then Some(row.a.terms[0].v) else None
    }

    method PushRow(row: Row)
      requires Valid() && RowBelow(row, next)
      modifies this`rows, this`booleans
      ensures Valid() && Snap() == AddRow(old(Snap()), row) && Extends(old(Snap()), Snap()) && next >= old(next)
      ensures forall s: Assignment :: AddsAt(p, old(Snap()), Snap(), s, Holds(p, row, s))
      ensures old(booleans) <= booleans
      ensures BooleanityVar(row).Some? ==> BooleanityVar(row).value in booleans
    {
      hide Ordered, Indexed, Eval, Meets, Hinted, Pow2, IsPrime, OkBits;
      ghost var c := Snap();
      rows := rows + [row];
      AddRowMeets(p, c, row);
      CachesStay(p, c, Snap(), Memory());
      match BooleanityVar(row) {
        case Some(v) =>
          forall s: Assignment
            ensures Holds(p, row, s) <==> s(v) % p <= 1
          {
            BooleanRow(p, v, s);
          }
          assert Var(v).terms[0].v == v;
          booleans := booleans + {v};
        case None =>
      }
    }

    /** A variable the solver computes. */
    method Hint(g: Gen)
      requires Valid() && Spans(g, next, LastOut(g) + 1)
      modifies this`next, this`gens
      ensures Valid() && Snap() == AddGen(old(Snap()), g) && Extends(old(Snap()), Snap()) && next >= old(next)
      ensures forall s: Assignment :: Meets(p, Snap(), s) <==> Meets(p, old(Snap()), s)
      ensures forall s: Assignment :: Hinted(p, Snap(), |old(gens)|, s) <==> AsHinted(p, g, s)
    {
      hide Ordered, Eval, Meets, Hinted, IsPrime, Pow2, OkBits, IsBit;
      ghost var c := Snap();
      gens := gens + [Some(g)];
      next := LastOut(g) + 1;
      AddGenMeets(p, c, g);
      CachesStay(p, c, Snap(), Memory());
    }

    /** Name a form with very many terms by a variable of its own. */
    method Materialize(x: Lc) returns (y: Lc)
      requires Valid() && Below(x, next)
      modifies this
      ensures Valid() && Extends(old(Snap()), Snap()) && next >= old(next) && Below(y, next)
      ensures NoDivision(old(Snap()), Snap())
      ensures forall s: Assignment :: AddsAt(p, old(Snap()), Snap(), s, true)
      ensures forall s: Assignment :: Meets(p, Snap(), s) ==> Value(p, y, s) == Value(p, x, s)
      ensures |x.terms| <= threshold ==> y == x && Snap() == old(Snap())
      ensures pending == old(pending) && computed == old(computed) && old(booleans) <= booleans
    {
      if |x.terms| <= threshold {
        return x;
      }
      ghost var c := Snap();
      var v := next;
      Hint(LinearOp(v, x));
      ghost var c1 := Snap();
      y := Var(v);
      PushRow(EqualRow(x, y));
      ghost var c2 := Snap();
      ExtendsTrans(c, c1, c2);
      forall s: Assignment
        ensures AddsAt(p, c, c2, s, true)
        ensures Meets(p, c2, s) ==> Value(p, y, s) == Value(p, x, s)
      {
        EqualRowHolds(p, x, y, s);
        HintedSplit(p, c, c1, c2, s);
      }
    }

    // ----- products -----

    function Key(l: Lc, r: Lc): (nat, nat) {
      if hash(l) <= hash(r) then (hash(l), hash(r)) else (hash(r), hash(l))
    }

    /** The output of a row that is literally the product `l · r`, in either order, and already in use. */
    method FindProduct(l: Lc, r: Lc) returns (out: Option<nat>)
      requires Valid()
      ensures out.Some? ==> out.value < next
      ensures out.Some? ==> forall s: Assignment :: Meets(p, Snap(), s) ==>
        Cong(p, s(out.value), Eval(l, s) * Eval(r, s))
    {
      if !cse || Key(l, r) !in products {
        return None;
      }
      var (v, i) := products[Key(l, r)];
      var row := rows[i];
      if v in pending || v in merged || !((row.a == l && row.b == r) || (row.a == r && row.b == l)) || row.c != Var(v) {
        return None;
      }
      forall s: Assignment | Meets(p, Snap(), s)
        ensures Cong(p, s(v), Eval(l, s) * Eval(r, s))
      {
        assert Holds(p, Snap().rows[i], s);
      }
      out := Some(v);
    }

    method AppendProduct(l: Lc, r: Lc)
      modifies this`next, this`rows, this`gens, this`deferred
      ensures Snap() == AddProduct(old(Snap()), l, r)
    {
      rows := rows + [Row(l, r, Var(next))];
      deferred := deferred[|gens| := (|rows| - 1, next)];
      gens := gens + [None];
      next := next + 1;
    }

    /** A fresh product with its own row. */
    method NewProduct(l: Lc, r: Lc) returns (out: nat)
      requires Valid() && Below(l, next) && Below(r, next)
      modifies this`next, this`rows, this`gens, this`deferred, this`pending, this`products, this`booleans
      ensures Valid() && out == old(next) && Snap() == AddProduct(old(Snap()), l, r)
      ensures pending == old(pending)[out := (|old(rows)|, |old(gens)|)] && old(booleans) <= booleans
      ensures IsBooleanLc(old(booleans), old(computed), l) && IsBooleanLc(old(booleans), old(computed), r) ==>
        out in booleans
    {
      hide Ordered, Indexed, OkCaches, Eval, Meets, Hinted, Extends, Below, Cong, Value, IsPrime, Pow2, IsBooleanLc,
        Add, Sub, Const, Divides;
      ghost var (c, k) := (Snap(), Memory());
      var bits := IsBooleanLc(booleans, computed, l) && IsBooleanLc(booleans, computed, r);
      out := next;
      AppendProduct(l, r);
      booleans := if bits then booleans + {out} else booleans;
      products := if cse then products[Key(l, r) := (out, |rows| - 1)] else products;
      pending := pending[out := (|rows| - 1, |gens| - 1)];
      ProductCaches(p, c, k, l, r, Memory());
    }

    /** A variable for `lhs · rhs`. */
    method EmitMul(lhs: Lc, rhs: Lc) returns (out: nat)
      requires Valid() && Below(lhs, next) && Below(rhs, next)
      modifies this
      ensures Valid() && Extends(old(Snap()), Snap()) && next >= old(next) && out < next
      ensures NoDivision(old(Snap()), Snap())
      ensures forall s: Assignment :: AddsAt(p, old(Snap()), Snap(), s, true)
      ensures forall s: Assignment :: Meets(p, old(Snap()), s) ==> Completes(p, old(Snap()), Snap(), s)
      ensures forall s: Assignment :: Meets(p, Snap(), s) ==> Cong(p, s(out), Eval(lhs, s) * Eval(rhs, s))
      ensures old(booleans) <= booleans
    {
      hide Ordered, Indexed, OkCaches, Meets, Hinted, Eval, Cong, Value, IsPrime, Pow2, Extends, NoDivision, Completes;
      ghost var c := Snap();
      var l := Materialize(lhs);
      ghost var c1 := Snap();
      var r := Materialize(rhs);
      ghost var c2 := Snap();
      NoDivisionTrans(c, c1, c2);
      ExtendsTrans(c, c1, c2);
      var found := FindProduct(l, r);
      match found {
        case Some(v) =>
          AddsNothing(p, c2);
          NoneAdded(c2, c2);
          out := v;
        case None =>
          AddProductMeets(p, c2, l, r);
          out := NewProduct(l, r);
          ProductAdded(c2, l, r);
      }
      NoDivisionTrans(c, c2, Snap());
      forall s: Assignment
        ensures AddsAt(p, c, Snap(), s, true)
        ensures Meets(p, Snap(), s) ==> Cong(p, s(out), Eval(lhs, s) * Eval(rhs, s))
      {
        AddsTrans(p, c, c1, c2, s, true, true);
        AddsTrans(p, c, c2, Snap(), s, true, true);
        if Meets(p, Snap(), s) {
          SameProduct(p, l, r, lhs, rhs, out, s);
        }
      }
      AllComplete(p, c, Snap());
    }

    // ----- bit operations -----

    /** A variable for `a xor b` of bits, in one row: `2a · b = a + b − c`. */
    method EmitXor(a: Lc, b: Lc) returns (c: nat)
      requires Valid() && Below(a, next) && Below(b, next)
      modifies this
      ensures Valid() && Extends(old(Snap()), Snap()) && next >= old(next) && c < next
      ensures forall s: Assignment :: AddsAt(p, old(Snap()), Snap(), s, true)
      ensures forall s: Assignment :: Meets(p, old(Snap()), s) ==> Completes(p, old(Snap()), Snap(), s)
      ensures forall s: Assignment :: Meets(p, Snap(), s) ==> AsHinted(p, Xor(c, a, b), s)
      ensures old(booleans) <= booleans
    {
      hide Ordered, Indexed, OkCaches, Meets, Hinted, Eval, Cong, IsPrime, Pow2, Extends, NoDivision, Completes;
      ghost var c0 := Snap();
      ConsumePending(a);
      ConsumePending(b);
      c := next;
      Hint(Xor(c, a, b));
      ghost var c1 := Snap();
      PushRow(Row(Scale(a, 2), b, Sub(Add(a, b), Var(c))));
      ghost var c2 := Snap();
      ExtendsTrans(c0, c1, c2);
      forall s: Assignment
        ensures AddsAt(p, c0, c2, s, true)
        ensures Meets(p, c2, s) ==> AsHinted(p, Xor(c, a, b), s)
      {
        XorRow(p, a, b, c, s);
        HintedSplit(p, c0, c1, c2, s);
      }
      HintAdded(c0, Xor(c, a, b), c2);
      AllComplete(p, c0, c2);
      if IsBooleanLc(booleans, computed, a) && IsBooleanLc(booleans, computed, b) {
        BooleanLcIsBit(p, c2, Memory(), a);
        BooleanLcIsBit(p, c2, Memory(), b);
        XorIsBit(p, c2, a, b, c);
        LearnBit(c);
      }
    }

    /** A variable for `a or b` of bits, in one row: `a · b = a + b − c`. */
    method EmitOr(a: Lc, b: Lc) returns (c: nat)
      requires Valid() && Below(a, next) && Below(b, next)
      modifies this
      ensures Valid() && Extends(old(Snap()), Snap()) && next >= old(next) && c < next
      ensures forall s: Assignment :: AddsAt(p, old(Snap()), Snap(), s, true)
      ensures forall s: Assignment :: Meets(p, old(Snap()), s) ==> Completes(p, old(Snap()), Snap(), s)
      ensures forall s: Assignment :: Meets(p, Snap(), s) ==> AsHinted(p, Or(c, a, b), s)
      ensures old(booleans) <= booleans
    {
      hide Ordered, Indexed, OkCaches, Meets, Hinted, Eval, Cong, IsPrime, Pow2, Extends, NoDivision, Completes;
      ghost var c0 := Snap();
      ConsumePending(a);
      ConsumePending(b);
      c := next;
      Hint(Or(c, a, b));
      ghost var c1 := Snap();
      PushRow(Row(a, b, Sub(Add(a, b), Var(c))));
      ghost var c2 := Snap();
      ExtendsTrans(c0, c1, c2);
      forall s: Assignment
        ensures AddsAt(p, c0, c2, s, true)
        ensures Meets(p, c2, s) ==> AsHinted(p, Or(c, a, b), s)
      {
        OrRow(p, a, b, c, s);
        HintedSplit(p, c0, c1, c2, s);
      }
      HintAdded(c0, Or(c, a, b), c2);
      AllComplete(p, c0, c2);
      if IsBooleanLc(booleans, computed, a) && IsBooleanLc(booleans, computed, b) {
        BooleanLcIsBit(p, c2, Memory(), a);
        BooleanLcIsBit(p, c2, Memory(), b);
        OrIsBit(p, c2, a, b, c);
        LearnBit(c);
      }
    }

    /** Remember a proven bit. */
    method LearnBit(v: nat)
      requires Valid() && v < next && IsBit(p, Snap(), Var(v))
      modifies this`booleans
      ensures Valid() && booleans == old(booleans) + {v}
    {
      hide Ordered, Indexed, Meets, Pow2, IsPrime, OkBits;
      booleans := booleans + {v};
    }

    /** A form for `base^n`, by repeated squaring. */
    method EmitPow(base: Lc, n: nat) returns (r: Lc)
      requires Valid() && Below(base, next)
      modifies this
      ensures Valid() && Extends(old(Snap()), Snap()) && next >= old(next) && Below(r, next)
      ensures forall s: Assignment :: AddsAt(p, old(Snap()), Snap(), s, true)
      ensures forall s: Assignment :: Meets(p, old(Snap()), s) ==> Completes(p, old(Snap()), Snap(), s)
      ensures forall s: Assignment :: Meets(p, Snap(), s) ==> Cong(p, Eval(r, s), Power(Eval(base, s), n))
    {
      hide Ordered, Indexed, OkCaches, Meets, Hinted, Eval, Cong, IsPrime, Pow2, Power, PowerSoFar, Value, NoDivision,
        Completes, Extends;
      ghost var c0 := Snap();
      AddsNothing(p, c0);
      NoneAdded(c0, c0);
      AllComplete(p, c0, c0);
      if n == 0 {
        forall s: Assignment
          ensures Cong(p, Eval(Const(1), s), Power(Eval(base, s), n))
        {
          PowerUnit(p, Eval(base, s));
        }
        return Const(1);
      }
      var b, e: nat, acc: Option<Lc> := base, n, None;
      forall s: Assignment
        ensures PowerSoFar(p, base, n, None, base, n, s)
      {
        PowerStart(p, base, n, s);
      }
      while e > 0
        invariant Valid() && Extends(c0, Snap()) && Below(b, next) && (acc.Some? ==> Below(acc.value, next))
          && next >= old(next)
        invariant acc.None? ==> e > 0
        invariant NoDivision(c0, Snap()) && forall s: Assignment :: AddsAt(p, c0, Snap(), s, true)
        invariant forall s: Assignment :: Meets(p, Snap(), s) ==> PowerSoFar(p, base, n, acc, b, e, s)
        decreases e
      {
        acc, b := PowStep(base, n, acc, b, e, c0);
        e := e / 2;
      }
      forall s: Assignment | Meets(p, Snap(), s)
        ensures Cong(p, Eval(acc.value, s), Power(Eval(base, s), n))
      {
        PowerDone(p, base, n, acc, b, s);
      }
      AllComplete(p, c0, Snap());
      r := acc.value;
    }

    method PowStep(base: Lc, n: nat, acc: Option<Lc>, b: Lc, e: nat, ghost c0: Circuit)
      returns (acc1: Option<Lc>, b1: Lc)
      requires Valid() && Shaped(c0) && Extends(c0, Snap()) && Below(b, next) && (acc.Some? ==> Below(acc.value, next))
        && e > 0
      requires NoDivision(c0, Snap()) && forall s: Assignment :: AddsAt(p, c0, Snap(), s, true)
      requires forall s: Assignment :: Meets(p, Snap(), s) ==> PowerSoFar(p, base, n, acc, b, e, s)
      modifies this
      ensures Valid() && Extends(c0, Snap()) && Below(b1, next) && (acc1.Some? ==> Below(acc1.value, next))
        && next >= old(next)
      ensures acc1.None? ==> e / 2 > 0
      ensures NoDivision(c0, Snap()) && forall s: Assignment :: AddsAt(p, c0, Snap(), s, true)
      ensures forall s: Assignment :: Meets(p, Snap(), s) ==> PowerSoFar(p, base, n, acc1, b1, e / 2, s)
    {
      hide Ordered, Indexed, OkCaches, Meets, Hinted, Eval, Cong, IsPrime, Pow2, Power, PowerSoFar, Value, Extends,
        NoDivision, Completes;
      ghost var c1 := Snap();
      AddsNothing(p, c1);
      NoneAdded(c1, c1);
      acc1 := acc;
      if e % 2 == 1 {
        if acc.None? {
          acc1 := Some(b);
        } else {
          ConsumePending(acc.value);
          ConsumePending(b);
          var v := EmitMul(acc.value, b);
          acc1 := Some(Var(v));
        }
      }
      ghost var c2 := Snap();
      AddsNothing(p, c2);
      NoneAdded(c2, c2);
      b1 := b;
      if e / 2 > 0 {
        ConsumePending(b);
        var v := EmitMul(b, b);
        b1 := Var(v);
      }
      NoDivisionTrans(c0, c1, c2);
      NoDivisionTrans(c0, c2, Snap());
      forall s: Assignment
        ensures AddsAt(p, c0, Snap(), s, true)
        ensures Meets(p, Snap(), s) ==> PowerSoFar(p, base, n, acc1, b1, e / 2, s)
      {
        AddsTrans(p, c0, c1, c2, s, true, true);
        AddsTrans(p, c0, c2, Snap(), s, true, true);
        if Meets(p, Snap(), s) {
          PowerNext(p, base, n, acc, b, e, acc1, b1, s);
        }
      }
    }

    // ----- equalities -----

    /** Fold `a · b = v` and `v = target` into `a · b = target`. */
    method MergeMul(v: nat, target: Lc)
      requires Valid() && v in pending && Below(target, next)
      modifies this`rows, this`merged, this`pending, this`booleans
      ensures Valid() && Extends(old(Snap()), Snap()) && next == old(next) && gens == old(gens)
      ensures forall s: Assignment :: AddsAt(p, old(Snap()), Snap(), s, s(v) % p == Value(p, target, s))
      ensures v in merged && pending == old(pending) - {v} && old(booleans) <= booleans
    {
      hide Ordered, Indexed, OkCaches, Meets, Hinted, Eval, Cong, IsPrime, Pow2, Value;
      ghost var (c, k) := (Snap(), Memory());
      var (row, slot) := pending[v];
      PendingIsOk(p, c, k, v);
      pending := pending - {v};
      merged := merged[v := (slot, row)];
      rows := rows[row := rows[row].(c := target)];
      MergeMeets(p, c, v, slot, row, target);
      MergeCaches(p, c, k, v, slot, row, target);
      match BooleanityVar(rows[row]) {
        case Some(u) =>
          BooleanityIsBit(p, Snap(), row, u);
          LearnBit(u);
        case None =>
      }
    }

    /** Require `lhs = rhs`. */
    method EmitRequireEq(lhs: Lc, rhs: Lc)
      requires Valid() && Below(lhs, next) && Below(rhs, next)
      modifies this`rows, this`merged, this`pending, this`booleans
      ensures Valid() && Extends(old(Snap()), Snap()) && next == old(next) && gens == old(gens)
      ensures forall s: Assignment :: AddsAt(p, old(Snap()), Snap(), s, Value(p, lhs, s) == Value(p, rhs, s))
      ensures old(booleans) <= booleans
    {
      hide Ordered, Indexed, OkCaches, Meets, Hinted, IsPrime, Pow2;
      ghost var c := Snap();
      var (l, r) := (AsPending(lhs), AsPending(rhs));
      if l.Some? {
        MergeMul(l.value, rhs);
      } else if r.Some? {
        MergeMul(r.value, lhs);
      } else if Sub(lhs, rhs) == Const(0) {
        AddsNothing(p, c);
        assert forall s: Assignment :: Eval(Sub(lhs, rhs), s) == 0;
      } else {
        PushRow(EqualRow(lhs, rhs));
        forall s: Assignment
          ensures AddsAt(p, c, Snap(), s, Value(p, lhs, s) == Value(p, rhs, s))
        {
          EqualRowHolds(p, lhs, rhs, s);
        }
      }
    }

    /** Require `lhs = rhs` where the bit `g` is 1, by the row `g · (lhs − rhs) = 0`. */
    method EmitRequireEqGated(g: Lc, lhs: Lc, rhs: Lc)
      requires Valid() && Below(g, next) && Below(lhs, next) && Below(rhs, next)
      modifies this`rows, this`pending, this`booleans
      ensures Valid() && Extends(old(Snap()), Snap()) && next == old(next) && gens == old(gens)
      ensures forall s: Assignment ::
                AddsAt(p, old(Snap()), Snap(), s, Value(p, g, s) != 0 ==> Value(p, lhs, s) == Value(p, rhs, s))
      ensures old(booleans) <= booleans
    {
      hide Ordered, Indexed, OkCaches, Meets, Hinted, IsPrime, Pow2;
      ConsumePending(lhs);
      ConsumePending(rhs);
      ConsumePending(g);
      ghost var c := Snap();
      if Sub(lhs, rhs) == Const(0) {
        AddsNothing(p, c);
        assert forall s: Assignment :: Eval(Sub(lhs, rhs), s) == 0;
      } else {
        PushRow(Row(g, Sub(lhs, rhs), Const(0)));
        forall s: Assignment
          ensures AddsAt(p, c, Snap(), s, Value(p, g, s) != 0 ==> Value(p, lhs, s) == Value(p, rhs, s))
        {
          GatedRowHolds(p, g, lhs, rhs, s);
        }
      }
    }

    /** A hint's input inside an arm guarded by `gate`: the value where the arm is taken, and 0 elsewhere. */
    method GateInput(gate: Option<Lc>, x: Lc) returns (y: Lc)
      requires Valid() && Below(x, next) && (gate.Some? ==> Below(gate.value, next))
      modifies this
      ensures Valid() && Extends(old(Snap()), Snap()) && next >= old(next) && Below(y, next)
        && old(booleans) <= booleans && NoDivision(old(Snap()), Snap())
      ensures forall s: Assignment :: AddsAt(p, old(Snap()), Snap(), s, true)
      ensures forall s: Assignment :: Meets(p, old(Snap()), s) ==> Completes(p, old(Snap()), Snap(), s)
      ensures forall s: Assignment :: Meets(p, Snap(), s) ==> Value(p, y, s) == Gated(p, gate, x, s)
      ensures gate.None? ==> y == x && Snap() == old(Snap())
    {
      hide Ordered, Indexed, OkCaches, Meets, Hinted, IsPrime, Pow2, Eval, NoDivision, Completes;
      AddsNothing(p, Snap());
      NoneAdded(Snap(), Snap());
      AllComplete(p, Snap(), Snap());
      if gate.None? {
        return x;
      }
      if x == Const(0) {
        forall s: Assignment
          ensures Gated(p, gate, x, s) == Value(p, x, s)
        {
          assert Eval(gate.value, s) * Eval(x, s) == 0;
        }
        return x;
      }
      ConsumePending(x);
      ConsumePending(gate.value);
      var v := EmitMul(gate.value, x);
      y := Var(v);
    }

    /** A hinted variable of an untaken arm is 0. */
    method PinDead(gate: Option<Lc>, v: nat)
      requires Valid() && v < next && (gate.Some? ==> Below(gate.value, next))
      modifies this`rows, this`pending, this`booleans
      ensures Shaped(old(Snap())) && Shaped(Snap()) && Tightens(p, old(Snap()), Snap())
      ensures Valid() && Extends(old(Snap()), Snap()) && next == old(next) && gens == old(gens)
      ensures old(booleans) <= booleans
      ensures forall s: Assignment :: gate.Some? && Value(p, gate.value, s) <= 1
                ==> AddsAt(p, old(Snap()), Snap(), s, Value(p, gate.value, s) == 0 ==> s(v) % p == 0)
      ensures gate.None? ==> Snap() == old(Snap())
    {
      hide Ordered, Indexed, OkCaches, Meets, Hinted, IsPrime, Pow2, Eval, Value;
      ghost var c := Snap();
      if gate.Some? {
        EmitRequireEqGated(Sub(Const(1), gate.value), Var(v), Const(0));
        forall s: Assignment | Meets(p, Snap(), s)
          ensures Meets(p, c, s)
        {
          assert AddsAt(p, c, Snap(), s, Value(p, Sub(Const(1), gate.value), s) != 0 ==>
            Value(p, Var(v), s) == Value(p, Const(0), s));
        }
        forall s: Assignment | Value(p, gate.value, s) <= 1
          ensures Value(p, Sub(Const(1), gate.value), s) == 1 - Value(p, gate.value, s)
          ensures Value(p, Var(v), s) == s(v) % p && Value(p, Const(0), s) == 0
        {
          NotValue(p, gate.value, v, s);
        }
      }
    }

    // ----- decomposition -----

    /** Bits `1..n` of `x` as hinted variables, each with its booleanity row; `sum` is what they weigh. */
    method HighBitRows(x: Lc, n: nat) returns (sum: Lc)
      requires Valid() && Below(x, next) && n >= 1
      modifies this`next, this`rows, this`gens, this`booleans
      ensures Valid() && Extends(old(Snap()), Snap()) && next == old(next) + n - 1 && Below(sum, next)
      ensures NoDivision(old(Snap()), Snap())
      ensures old(booleans) <= booleans && forall v :: old(next) <= v < next ==> v in booleans
      ensures n == 1 ==> sum == Const(0)
      ensures forall s: Assignment :: Meets(p, Snap(), s) <==> Meets(p, old(Snap()), s) && HighBits(p, s, old(next), n)
      ensures forall s: Assignment ::
                Hinted(p, Snap(), |old(gens)|, s) <==> HighHinted(p, s, old(next), n, Value(p, x, s))
      ensures forall s: Assignment :: Eval(sum, s) == HighSum(s, old(next), n)
    {
      hide Ordered, Indexed, OkCaches, Meets, Hinted, IsPrime, Value, Eval, Extends, HighHinted, HighBits, HighSum,
        Pow2, NoDivision;
      ghost var (c, base) := (Snap(), next);
      NoneAdded(c, c);
      sum := Const(0);
      var i, pow: nat := 1, 1;
      AddsNothing(p, c);
      PowZero();
      forall s: Assignment
        ensures Hinted(p, c, |c.gens|, s) && HighHinted(p, s, base, 1, Value(p, x, s)) && HighBits(p, s, base, 1)
        ensures Eval(sum, s) == HighSum(s, base, 1)
      {
        NoHints(p, c, s);
        NoHighBits(p, base, x, s);
      }
      while i < n
        invariant 1 <= i <= n && Valid() && Extends(c, Snap()) && next == base + i - 1 && Below(sum, next)
          && pow == Pow2(i - 1) && NoDivision(c, Snap())
        invariant old(booleans) <= booleans && forall v :: base <= v < next ==> v in booleans
        invariant i == 1 ==> sum == Const(0)
        invariant forall s: Assignment :: Meets(p, Snap(), s) <==> Meets(p, c, s) && HighBits(p, s, base, i)
        invariant forall s: Assignment :: Hinted(p, Snap(), |c.gens|, s) <==> HighHinted(p, s, base, i, Value(p, x, s))
        invariant forall s: Assignment :: Eval(sum, s) == HighSum(s, base, i)
      {
        PowDouble(i - 1);
        pow := pow * 2;
        sum := HighBitRow(x, i, pow, sum, c, base);
        i := i + 1;
      }
    }

    method HighBitRow(x: Lc, i: nat, pow: nat, sum: Lc, ghost c: Circuit, ghost base: nat) returns (more: Lc)
      requires Valid() && Shaped(c) && Extends(c, Snap()) && Below(x, base) && base == c.next
      requires i >= 1 && next == base + i - 1 && Below(sum, next) && pow == Pow2(i) && NoDivision(c, Snap())
      requires forall s: Assignment :: Meets(p, Snap(), s) <==> Meets(p, c, s) && HighBits(p, s, base, i)
      requires forall s: Assignment :: Hinted(p, Snap(), |c.gens|, s) <==> HighHinted(p, s, base, i, Value(p, x, s))
      requires forall s: Assignment :: Eval(sum, s) == HighSum(s, base, i)
      modifies this`next, this`rows, this`gens, this`booleans
      ensures Valid() && Extends(c, Snap()) && next == old(next) + 1 && Below(more, next) && NoDivision(c, Snap())
      ensures booleans >= old(booleans) + {old(next)}
      ensures forall s: Assignment :: Meets(p, Snap(), s) <==> Meets(p, c, s) && HighBits(p, s, base, i + 1)
      ensures forall s: Assignment :: Hinted(p, Snap(), |c.gens|, s) <==> HighHinted(p, s, base, i + 1, Value(p, x, s))
      ensures forall s: Assignment :: Eval(more, s) == HighSum(s, base, i + 1)
    {
      hide Ordered, Indexed, OkCaches, Meets, Hinted, IsPrime, Value, Eval, HighBits, HighHinted, Holds, Pow2, Extends,
        NoDivision;
      ghost var c1 := Snap();
      var b := next;
      Hint(Bit(b, x, i));
      ghost var c2 := Snap();
      PushRow(Row(Var(b), Var(b), Var(b)));
      assert Var(b).terms[0].v == b;
      ghost var c3 := Snap();
      ExtendsTrans(c1, c2, c3);
      more := Add(sum, Scale(Var(b), pow));
      HintAdded(c1, Bit(b, x, i), c3);
      NoDivisionTrans(c, c1, c3);
      forall s: Assignment
        ensures Meets(p, c3, s) <==> Meets(p, c, s) && HighBits(p, s, base, i + 1)
        ensures Hinted(p, c3, |c.gens|, s) <==> HighHinted(p, s, base, i + 1, Value(p, x, s))
        ensures Eval(more, s) == HighSum(s, base, i + 1)
      {
        BooleanRow(p, b, s);
        SameGens(p, c2, c3, s);
        HighBitAdds(p, c, c1, c2, c3, x, s, base, i);
      }
    }

    /**
     * Decompose `x` into `n` bits, lowest first, which proves `x < 2^n`: bits `1..n` are hinted variables, and
     * bit 0 is what they leave. In an arm guarded by `gate` the bits decompose `gate · x`.
     */
    method DecomposeBits(x: Lc, n: nat, gate: Option<Lc>) returns (bits: seq<Lc>)
      requires Valid() && Below(x, next) && (gate.Some? ==> Below(gate.value, next)) && n <= 253
      modifies this
      ensures Valid() && Extends(old(Snap()), Snap()) && next >= old(next) && old(booleans) <= booleans
      ensures |bits| == n && forall i :: 0 <= i < n ==> Below(bits[i], next)
      ensures !IsConst(x) && gate.None? ==> PlainBits(bits)
      ensures NoDivision(old(Snap()), Snap())
      ensures forall s: Assignment :: AddsAt(p, old(Snap()), Snap(), s, Gated(p, gate, x, s) < Pow2(n))
      ensures forall s: Assignment :: Meets(p, old(Snap()), s) && Gated(p, gate, x, s) < Pow2(n) ==>
        Completes(p, old(Snap()), Snap(), s)
      ensures forall s: Assignment :: Meets(p, Snap(), s) ==> AreBitsOf(p, bits, Gated(p, gate, x, s), s)
    {
      hide Ordered, Indexed, OkCaches, Meets, Hinted, IsPrime, Value, Eval, Pow2, Gated, AreBitsOf, Extends, NoDivision,
        Completes;
      ghost var c := Snap();
      var v := GateInput(gate, x);
      ghost var c1 := Snap();
      if n == 0 {
        PushRow(EqualRow(v, Const(0)));
        NoneAdded(c1, Snap());
        NoDivisionTrans(c, c1, Snap());
        forall s: Assignment
          ensures AddsAt(p, c, Snap(), s, Gated(p, gate, x, s) < Pow2(n))
        {
          EqualRowHolds(p, v, Const(0), s);
          ZeroBits(p, v, s);
          AddsThen(p, c, c1, Snap(), s, true, Value(p, v, s) < Pow2(n), Gated(p, gate, x, s) < Pow2(n));
        }
        RangeCompletes(p, c, Snap(), gate, x, n);
        forall s: Assignment
          ensures AreBitsOf(p, [], Gated(p, gate, x, s), s)
        {
          NoBits(p, Gated(p, gate, x, s), s);
        }
        return [];
      }
      bits := Decompose(v, n);
      NoDivisionTrans(c, c1, Snap());
      forall s: Assignment
        ensures AddsAt(p, c, Snap(), s, Gated(p, gate, x, s) < Pow2(n))
        ensures Meets(p, Snap(), s) ==> AreBitsOf(p, bits, Gated(p, gate, x, s), s)
      {
        AddsThen(p, c, c1, Snap(), s, true, Value(p, v, s) < Pow2(n), Gated(p, gate, x, s) < Pow2(n));
      }
      RangeCompletes(p, c, Snap(), gate, x, n);
    }

    method Decompose(x: Lc, n: nat) returns (bits: seq<Lc>)
      requires Valid() && Below(x, next) && 1 <= n <= 253
      modifies this`next, this`rows, this`gens, this`booleans, this`computed
      ensures Valid() && Extends(old(Snap()), Snap()) && next >= old(next) && old(booleans) <= booleans
      ensures |bits| == n && forall i :: 0 <= i < n ==> Below(bits[i], next)
      ensures !IsConst(x) ==> PlainBits(bits)
      ensures NoDivision(old(Snap()), Snap())
      ensures forall s: Assignment :: AddsAt(p, old(Snap()), Snap(), s, Value(p, x, s) < Pow2(n))
      ensures forall s: Assignment :: Meets(p, Snap(), s) ==> AreBitsOf(p, bits, Value(p, x, s), s)
    {
      hide Ordered, Indexed, OkCaches, Meets, Hinted, IsPrime, Value, Eval, Pow2, AreBitsOf, HighSum, HighBits,
        HighHinted, Holds, Extends, NoDivision;
      ghost var (c, base) := (Snap(), next);
      var first := next;
      var sum := HighBitRows(x, n);
      ghost var c1 := Snap();
      var low := Sub(x, sum);
      PushRow(Row(low, Sub(low, Const(1)), Const(0)));
      ghost var c2 := Snap();
      NoneAdded(c1, c2);
      NoDivisionTrans(c, c1, c2);
      bits := [low] + seq<Lc>(n - 1, i requires 0 <= i => Var(first + i));
      forall s: Assignment
        ensures AddsAt(p, c, c2, s, Value(p, x, s) < Pow2(n))
        ensures Meets(p, c2, s) ==> AreBitsOf(p, bits, Value(p, x, s), s)
      {
        DecomposeAdds(p, c, c1, c2, x, low, bits, s, base, n);
      }
      forall i | 0 <= i < n
        ensures Below(bits[i], next)
      {
        assert i > 0 ==> bits[i] == Var(first + i - 1);
      }
      assert c2 == Snap();
      if n > 1 {
        ComputedBitEnds(x, low, base, n);
      }
      NotConstants(x, sum, low, bits, first, n);
      if n == 1 {
        assert bits == [low];
        LearnOnlyBit(low, x);
      } else {
        LearnBits(first + n - 2, bits, x);
      }
    }

    /** A one-bit value that is a bare variable: its range row is its booleanity. */
    method LearnOnlyBit(low: Lc, ghost x: Lc)
      requires Valid() && Below(low, next)
      requires forall s: Assignment :: Meets(p, Snap(), s) ==> AreBitsOf(p, [low], Value(p, x, s), s)
      modifies this`booleans
      ensures Valid() && old(booleans) <= booleans
    {
      hide Ordered, Indexed, OkCaches, Meets, Hinted, IsPrime, Value, Eval, Pow2;
      if |low.terms| == 1 && low == Var(low.terms[0].v) {
        OneBit(p, Snap(), [low], x);
        LearnBit(low.terms[0].v);
      }
    }

    method LearnBits(top: nat, bits: seq<Lc>, ghost x: Lc)
      requires Valid() && |bits| >= 2 && EndsIn(bits[0], top) && PlainBits(bits)
      requires forall i :: 0 <= i < |bits| ==> Below(bits[i], next)
      requires forall s: Assignment :: Meets(p, Snap(), s) ==> AreBitsOf(p, bits, Value(p, x, s), s)
      modifies this`computed
      ensures Valid()
    {
      hide Ordered, Indexed, OkCaches, Meets, Hinted, IsPrime, Value, Eval, Pow2;
      DecomposedAreBits(p, Snap(), bits, x, top);
      LearnDecomposition(p, Snap(), Memory(), top, bits);
      computed := computed[top := bits];
    }

    // ----- comparisons -----

    /** A bit: whether `input` is 0, as `1 − input · inv` with `inv` the inverse, or 0 for 0. */
    method EmitIsZero(input: Lc) returns (out: Lc)
      requires Valid() && Below(input, next)
      modifies this
      ensures Valid() && Extends(old(Snap()), Snap()) && next >= old(next) && Below(out, next)
        && old(booleans) <= booleans
      ensures forall s: Assignment :: AddsAt(p, old(Snap()), Snap(), s, true)
      ensures forall s: Assignment :: Meets(p, old(Snap()), s) ==> Completes(p, old(Snap()), Snap(), s)
      ensures forall s: Assignment :: Meets(p, Snap(), s) ==>
        Value(p, out, s) == if Value(p, input, s) == 0 then 1 else 0
    {
      hide Ordered, Indexed, OkCaches, Meets, Hinted, IsPrime, Value, Eval, Pow2, Cong, Extends, NoDivision, Completes;
      ghost var c := Snap();
      var inv := next;
      Hint(IsZeroInverse(inv, input));
      ghost var c1 := Snap();
      HintAdded(c, IsZeroInverse(inv, input), c1);
      var prod := EmitMul(input, Var(inv));
      out := Sub(Const(1), Var(prod));
      ghost var c2 := Snap();
      NoDivisionTrans(c, c1, c2);
      RequireZeroProduct(input, out);
      ConsumePending(out);
      ghost var c3 := Snap();
      NoDivisionTrans(c, c2, c3);
      RequireZeroProduct(Var(inv), out);
      NoDivisionTrans(c, c3, Snap());
      forall s: Assignment
        ensures AddsAt(p, c, Snap(), s, true)
        ensures Meets(p, Snap(), s) ==> Value(p, out, s) == if Value(p, input, s) == 0 then 1 else 0
      {
        IsZeroAdds(p, c, c1, c2, c3, Snap(), input, inv, prod, out, s);
      }
      AllComplete(p, c, Snap());
    }

    /** Require `x · y = 0`, as a product merged into an equality. */
    method RequireZeroProduct(x: Lc, y: Lc)
      requires Valid() && Below(x, next) && Below(y, next)
      modifies this
      ensures Valid() && Extends(old(Snap()), Snap()) && next >= old(next) && old(booleans) <= booleans
      ensures NoDivision(old(Snap()), Snap())
      ensures forall s: Assignment :: AddsAt(p, old(Snap()), Snap(), s, Divides(p, Eval(x, s) * Eval(y, s)))
    {
      hide Ordered, Indexed, OkCaches, Meets, Hinted, IsPrime, Value, Eval, Pow2, Extends, NoDivision, Completes;
      ghost var c := Snap();
      var v := EmitMul(x, y);
      ghost var c1 := Snap();
      EmitRequireEq(Var(v), Const(0));
      NoneAdded(c1, Snap());
      NoDivisionTrans(c, c1, Snap());
      forall s: Assignment
        ensures AddsAt(p, c, Snap(), s, Divides(p, Eval(x, s) * Eval(y, s)))
      {
        ZeroValue(p, v, s);
        AddsThen(p, c, c1, Snap(), s, true, Value(p, Var(v), s) == Value(p, Const(0), s),
          Divides(p, Eval(x, s) * Eval(y, s)));
      }
    }

    /** A hinted bit `n` of `input`, with its booleanity row, 0 in an arm that is not taken. */
    method BitVar(input: Lc, n: nat, gate: Option<Lc>) returns (v: nat)
      requires Valid() && Below(input, next) && (gate.Some? ==> Below(gate.value, next))
      modifies this`next, this`gens, this`rows, this`pending, this`booleans
      ensures Shaped(old(Snap())) && Shaped(Snap()) && Tightens(p, old(Snap()), Snap())
      ensures Valid() && Extends(old(Snap()), Snap()) && next >= old(next) && old(booleans) <= booleans
        && old(next) <= v < next && NoDivision(old(Snap()), Snap())
      ensures forall s: Assignment :: gate.None? || Value(p, gate.value, s) <= 1 ==>
                (Meets(p, Snap(), s) <==>
                  Meets(p, old(Snap()), s) && s(v) % p <= 1 && (Live(p, gate, s) || s(v) % p == 0))
      ensures forall s: Assignment :: Hinted(p, Snap(), |old(gens)|, s) <==> AsHinted(p, Bit(v, input, n), s)
    {
      hide Ordered, Indexed, OkCaches, Meets, Hinted, IsPrime, Eval, Pow2, Cong, Extends;
      ghost var c := Snap();
      v := next;
      Hint(Bit(v, input, n));
      ghost var c1 := Snap();
      PushRow(Row(Var(v), Var(v), Var(v)));
      ghost var c2 := Snap();
      ExtendsTrans(c, c1, c2);
      PinDead(gate, v);
      ExtendsTrans(c, c2, Snap());
      HintAdded(c, Bit(v, input, n), Snap());
      forall s: Assignment | Meets(p, Snap(), s)
        ensures Meets(p, c, s)
      {
        assert AddsAt(p, c1, c2, s, Holds(p, Row(Var(v), Var(v), Var(v)), s));
      }
      forall s: Assignment
        ensures Hinted(p, Snap(), |c.gens|, s) <==> AsHinted(p, Bit(v, input, n), s)
        ensures gate.None? || Value(p, gate.value, s) <= 1 ==>
                  (Meets(p, Snap(), s) <==> Meets(p, c, s) && s(v) % p <= 1 && (Live(p, gate, s) || s(v) % p == 0))
      {
        BooleanRow(p, v, s);
        SameGens(p, c1, c2, s);
        SameGens(p, c2, Snap(), s);
        HintedSplit(p, c, c1, c2, s);
        HintedSplit(p, c, c2, Snap(), s);
      }
    }

    /**
     * A bit: `a < b`, for `a` and `b` below `2^n`. Hint bit `n` of `a − b + 2^n`, and prove that
     * `a − b + 2^n · (1 − it)` is in range. In an arm guarded by `gate` the proof binds where it is taken.
     */
    method EmitLessThan(n: nat, a: Lc, b: Lc, gate: Option<Lc>) returns (lt: Option<Lc>)
      requires Valid() && Below(a, next) && Below(b, next) && (gate.Some? ==> Below(gate.value, next))
      modifies this
      ensures Shaped(old(Snap())) && Shaped(Snap()) && Tightens(p, old(Snap()), Snap())
      ensures Valid() && Extends(old(Snap()), Snap()) && next >= old(next) && old(booleans) <= booleans
      ensures lt.None? <==> n > 252
      ensures n > 252 ==> Snap() == old(Snap())
      ensures lt.Some? ==> Below(lt.value, next) && forall s: Assignment :: Comparable(p, gate, n, a, b, s) ==>
                AddsAt(p, old(Snap()), Snap(), s, true)
      ensures NoDivision(old(Snap()), Snap())
      ensures forall s: Assignment :: Meets(p, old(Snap()), s) && Comparable(p, gate, n, a, b, s) ==>
                Completes(p, old(Snap()), Snap(), s)
      ensures lt.Some? ==> forall s: Assignment :: Comparable(p, gate, n, a, b, s) && Meets(p, Snap(), s) ==>
                Value(p, lt.value, s) == if Live(p, gate, s) && Value(p, a, s) >= Value(p, b, s) then 0 else 1
    {
      hide Ordered, Indexed, OkCaches, Meets, Hinted, IsPrime, Value, Eval, Pow2, Cong, Gated, Comparable, Live, Add,
        Sub, Extends, NoDivision, Completes;
      ghost var c := Snap();
      AddsNothing(p, c);
      NoneAdded(c, c);
      if n > 252 {
        AllComplete(p, c, c);
        return None;
      }
      var w := Pow2(n);
      var diff := Add(Sub(a, b), Const(w));
      var input := GateInput(gate, diff);
      ghost var c1 := Snap();
      var top := BitVar(input, n, gate);
      ghost var c2 := Snap();
      NoDivisionTrans(c, c1, c2);
      var not := Sub(Const(1), Var(top));
      var scaled := EmitMul(not, Const(w));
      ghost var c3 := Snap();
      NoDivisionTrans(c, c2, c3);
      var r := Add(Sub(a, b), Var(scaled));
      var _ := DecomposeBits(r, n, gate);
      NoDivisionTrans(c, c3, Snap());
      forall s: Assignment | Meets(p, Snap(), s)
        ensures Meets(p, c, s)
      {
        assert AddsAt(p, c3, Snap(), s, Gated(p, gate, r, s) < Pow2(n)) && AddsAt(p, c2, c3, s, true)
          && AddsAt(p, c, c1, s, true);
      }
      forall s: Assignment | Comparable(p, gate, n, a, b, s)
        ensures AddsAt(p, c, Snap(), s, true)
        ensures Meets(p, Snap(), s) ==>
          Value(p, not, s) == if Live(p, gate, s) && Value(p, a, s) >= Value(p, b, s) then 0 else 1
      {
        GateCases(p, gate, n, a, b, s);
        LessThanAdds(p, c, c1, c2, c3, Snap(), gate, n, a, b, diff, input, top, scaled, r, s);
      }
      ComparedCompletes(p, c, Snap(), gate, n, a, b);
      lt := Some(not);
    }

    /**
     * `a − b` modulo `2^n`, for `a` and `b` below `2^n`: a hinted borrow, and a range proof. It is forced where
     * `2^(n+1)` is in the field, so for every `n` up to 252. For 253 it may not be: then the greatest number below
     * `2^n` less 0 has two answers.
     */
    method EmitWrappingSub(n: nat, a: Lc, b: Lc) returns (r: Lc)
      requires Valid() && Below(a, next) && Below(b, next) && n <= 253
      modifies this
      ensures Shaped(old(Snap())) && Shaped(Snap()) && Tightens(p, old(Snap()), Snap())
      ensures Valid() && Extends(old(Snap()), Snap()) && next >= old(next) && Below(r, next)
        && old(booleans) <= booleans
      ensures Pow2(n + 1) <= p ==> forall s: Assignment :: Comparable(p, None, n, a, b, s) ==>
        AddsAt(p, old(Snap()), Snap(), s, true)
      ensures forall s: Assignment :: Meets(p, old(Snap()), s) && Comparable(p, None, n, a, b, s) ==>
        Completes(p, old(Snap()), Snap(), s)
      ensures Pow2(n + 1) <= p ==> forall s: Assignment :: Comparable(p, None, n, a, b, s) && Meets(p, Snap(), s) ==>
                Value(p, r, s) == (Value(p, a, s) - Value(p, b, s)) % Pow2(n)
      ensures p < Pow2(n + 1) ==> forall s: Assignment ::
                Meets(p, old(Snap()), s) && Value(p, a, s) == Pow2(n) - 1 && Value(p, b, s) == 0 ==>
                TwoAnswers(p, old(Snap()), Snap(), r, s)
    {
      hide Ordered, Indexed, OkCaches, Meets, Hinted, IsPrime, Value, Eval, Pow2, Cong, Gated, Comparable, Live, Add,
        Sub, Extends, NoDivision, Completes, TwoAnswers;
      ghost var c := Snap();
      var w := Pow2(n);
      var shifted := Add(Sub(a, b), Const(w));
      var ge := BitVar(shifted, n, None);
      ghost var c1 := Snap();
      r := Add(Sub(a, b), Scale(Sub(Const(1), Var(ge)), w));
      var _ := DecomposeBits(r, n, None);
      ExtendsTrans(c, c1, Snap());
      forall s: Assignment | Meets(p, Snap(), s)
        ensures Meets(p, c, s)
      {
        assert AddsAt(p, c1, Snap(), s, Gated(p, None, r, s) < Pow2(n));
      }
      forall s: Assignment | Pow2(n + 1) <= p && Comparable(p, None, n, a, b, s)
        ensures AddsAt(p, c, Snap(), s, true)
        ensures Meets(p, Snap(), s) ==> Value(p, r, s) == (Value(p, a, s) - Value(p, b, s)) % Pow2(n)
      {
        GateCases(p, None, n, a, b, s);
        WrappingSubAdds(p, c, c1, Snap(), n, a, b, shifted, ge, r, s);
      }
      AllBorrowsComplete(p, c, c1, Snap(), n, a, b, ge, r);
    }
  }

  // ----- hints that do not divide -----

  lemma NoneAdded(c: Circuit, d: Circuit)
    requires |d.gens| == |c.gens|
    ensures NoDivision(c, d)
  {
  }

  lemma ProductAdded(c: Circuit, l: Lc, r: Lc)
    ensures NoDivision(c, AddProduct(c, l, r))
  {
  }

  lemma HintAdded(c: Circuit, g: Gen, d: Circuit)
    requires d.gens == c.gens + [Some(g)] && !g.DivRem?
    ensures NoDivision(c, d)
  {
  }

  // ----- what the comparison gadgets' rows force -----

  lemma ZeroValue(p: Prime, v: nat, s: Assignment)
    ensures Value(p, Var(v), s) == Value(p, Const(0), s) <==> Divides(p, s(v))
    ensures forall x: int :: Cong(p, s(v), x) ==> (Divides(p, s(v)) <==> Divides(p, x))
  {
  }

  lemma IsZeroAdds(p: Prime, c: Circuit, c1: Circuit, c2: Circuit, c3: Circuit, c4: Circuit, input: Lc, inv: nat,
                   prod: nat, out: Lc, s: Assignment)
    requires Shaped(c) && Shaped(c1) && Shaped(c2) && Shaped(c3) && Shaped(c4)
    requires Extends(c, c1) && Extends(c1, c2) && Extends(c2, c3) && Extends(c3, c4)
    requires Meets(p, c1, s) <==> Meets(p, c, s)
    requires Hinted(p, c1, |c.gens|, s) <==> AsHinted(p, IsZeroInverse(inv, input), s)
    requires AddsAt(p, c1, c2, s, true) && (Meets(p, c2, s) ==> Cong(p, s(prod), Eval(input, s) * s(inv)))
    requires Eval(out, s) == 1 - s(prod)
    requires AddsAt(p, c2, c3, s, Divides(p, Eval(input, s) * Eval(out, s)))
    requires AddsAt(p, c3, c4, s, Divides(p, s(inv) * Eval(out, s)))
    ensures AddsAt(p, c, c4, s, true)
    ensures Meets(p, c4, s) ==> Value(p, out, s) == if Value(p, input, s) == 0 then 1 else 0
  {
    hide Ordered, Indexed, Meets, Hinted, IsPrime, Eval;
    var (a, v, o) := (Eval(input, s), s(inv), Eval(out, s));
    if Meets(p, c2, s) {
      CongAdd(p, 1, 1, s(prod), a * v);
      ZeroTest(p, a, v, o);
    }
    AddsTrans(p, c2, c3, c4, s, Divides(p, a * o), Divides(p, v * o));
    AddsThen(p, c1, c2, c4, s, true, Divides(p, a * o) && Divides(p, v * o), v % p == InverseOrZero(p, a));
    HintedSplit(p, c, c1, c4, s);
  }

  /** The arm guarded by `gate` is taken. */
  ghost predicate Live(p: Prime, gate: Option<Lc>, s: Assignment) {
    gate.None? || Value(p, gate.value, s) == 1
  }

  /** The gate is a bit, and where it is taken both operands are below `2^n`. */
  ghost predicate Comparable(p: Prime, gate: Option<Lc>, n: nat, a: Lc, b: Lc, s: Assignment) {
    && (gate.Some? ==> Value(p, gate.value, s) <= 1)
    && (Live(p, gate, s) ==> Value(p, a, s) < Pow2(n) && Value(p, b, s) < Pow2(n))
  }

  /** A gated value is the value in a live arm, and 0 in a dead one. */
  lemma GatedValue(p: Prime, gate: Option<Lc>, x: Lc, s: Assignment)
    requires gate.Some? ==> Value(p, gate.value, s) <= 1
    ensures Gated(p, gate, x, s) == if Live(p, gate, s) then Value(p, x, s) else 0
  {
    if gate.Some? {
      var (g, y) := (Eval(gate.value, s), Eval(x, s));
      CongMod(p, g);
      CongMul(p, g, g % p, y, y);
      assert (g % p) * y == if g % p == 1 then y else 0;
    }
  }

  lemma Pow2Room(p: Prime, n: nat)
    requires p > Pow2(253) && n <= 252
    ensures 2 * Pow2(n) <= p
  {
    Pow2Mono(n + 1, 253);
  }

  /** What the range row of a comparison says, whether or not the arm is taken. */
  lemma LessThanValues(p: Prime, gate: Option<Lc>, n: nat, a: Lc, b: Lc, diff: Lc, top: nat, scaled: nat, r: Lc,
                       s: Assignment)
    requires p > Pow2(253) && n <= 252 && Comparable(p, gate, n, a, b, s)
    requires Eval(diff, s) == Eval(a, s) - Eval(b, s) + Pow2(n) && Eval(r, s) == Eval(a, s) - Eval(b, s) + s(scaled)
    requires s(top) % p <= 1 && Cong(p, s(scaled), Eval(Sub(Const(1), Var(top)), s) * Eval(Const(Pow2(n)), s))
    ensures Gated(p, gate, r, s) < Pow2(n) && (Live(p, gate, s) || s(top) % p == 0)
       <==> s(top) % p == BitOf(Gated(p, gate, diff, s), n)
    ensures Gated(p, gate, r, s) < Pow2(n) && (Live(p, gate, s) || s(top) % p == 0) ==>
              s(top) % p == if Live(p, gate, s) && Value(p, a, s) >= Value(p, b, s) then 1 else 0
  {
    hide IsPrime, Eval, BitOf, Pow2;
    GatedValue(p, gate, r, s);
    GatedValue(p, gate, diff, s);
    Pow2Room(p, n);
    if Live(p, gate, s) {
      var (x, y, w) := (Eval(a, s), Eval(b, s), Pow2(n));
      assert Eval(Sub(Const(1), Var(top)), s) == 1 - s(top) && Eval(Const(w), s) == w;
      CongAdd(p, x - y, x - y, s(scaled), (1 - s(top)) * w);
      BorrowRows(p, n, x, y, s(top), Eval(r, s));
    } else {
      ZeroHasNoBits(n);
    }
  }

  lemma ZeroHasNoBits(n: nat)
    ensures BitOf(0, n) == 0
  {
    ModUnique(0, Pow2(n), 0, 0);
  }

  /** The steps of a comparison: gate the input, hint the borrow bit, scale it, prove the range. */
  lemma LessThanAdds(p: Prime, c: Circuit, c1: Circuit, c2: Circuit, c3: Circuit, c4: Circuit, gate: Option<Lc>, n: nat,
                     a: Lc, b: Lc, diff: Lc, input: Lc, top: nat, scaled: nat, r: Lc, s: Assignment)
    requires Shaped(c) && Shaped(c1) && Shaped(c2) && Shaped(c3) && Shaped(c4)
    requires Extends(c, c1) && Extends(c1, c2) && Extends(c2, c3) && Extends(c3, c4)
    requires p > Pow2(253) && n <= 252 && Comparable(p, gate, n, a, b, s)
    requires AddsAt(p, c, c1, s, true) && (Meets(p, c1, s) ==> Value(p, input, s) == Gated(p, gate, diff, s))
    requires Meets(p, c2, s) <==> Meets(p, c1, s) && s(top) % p <= 1 && (Live(p, gate, s) || s(top) % p == 0)
    requires Hinted(p, c2, |c1.gens|, s) <==> AsHinted(p, Bit(top, input, n), s)
    requires AddsAt(p, c2, c3, s, true)
    requires Meets(p, c3, s) ==> Cong(p, s(scaled), Eval(Sub(Const(1), Var(top)), s) * Eval(Const(Pow2(n)), s))
    requires Eval(diff, s) == Eval(a, s) - Eval(b, s) + Pow2(n) && Eval(r, s) == Eval(a, s) - Eval(b, s) + s(scaled)
    requires AddsAt(p, c3, c4, s, Gated(p, gate, r, s) < Pow2(n))
    ensures AddsAt(p, c, c4, s, true)
    ensures Meets(p, c4, s) ==>
              Value(p, Sub(Const(1), Var(top)), s) == if Live(p, gate, s) && Value(p, a, s) >= Value(p, b, s) then 0
                else 1
  {
    hide Ordered, Indexed, Meets, Hinted, IsPrime, Eval, BitOf, Pow2, Cong, Gated, Extends, Comparable, Live, Sub,
      Value;
    var range := Gated(p, gate, r, s) < Pow2(n);
    ExtendsTrans(c, c1, c2);
    ExtendsTrans(c2, c3, c4);
    AddsTrans(p, c2, c3, c4, s, true, range);
    HintedSplit(p, c2, c3, c4, s);
    if Meets(p, c3, s) {
      LessThanValues(p, gate, n, a, b, diff, top, scaled, r, s);
    }
    if s(top) % p == BitOf(Gated(p, gate, diff, s), n) {
      DeadHint(p, gate, n, a, b, diff, top, s);
    }
    HintedSplit(p, c, c1, c2, s);
    HintedSplit(p, c, c2, c4, s);
    if Meets(p, c4, s) {
      NotVar(p, top, s);
    }
  }

  lemma NotVar(p: Prime, v: nat, s: Assignment)
    requires s(v) % p <= 1
    ensures Value(p, Sub(Const(1), Var(v)), s) == 1 - s(v) % p
  {
    OneMinusBit(p, s(v));
  }

  lemma GateCases(p: Prime, gate: Option<Lc>, n: nat, a: Lc, b: Lc, s: Assignment)
    requires Comparable(p, gate, n, a, b, s)
    ensures gate.Some? ==> (Live(p, gate, s) <==> Value(p, gate.value, s) != 0) && Value(p, gate.value, s) <= 1
    ensures gate.None? ==> Live(p, gate, s)
  {
  }

  /** The hint is a bit, and 0 in a dead arm. */
  lemma DeadHint(p: Prime, gate: Option<Lc>, n: nat, a: Lc, b: Lc, diff: Lc, top: nat, s: Assignment)
    requires Comparable(p, gate, n, a, b, s) && s(top) % p == BitOf(Gated(p, gate, diff, s), n)
    ensures s(top) % p <= 1 && (Live(p, gate, s) || s(top) % p == 0)
  {
    GatedValue(p, gate, diff, s);
    ZeroHasNoBits(n);
  }

  lemma WrappingSubAdds(p: Prime, c: Circuit, c1: Circuit, c2: Circuit, n: nat, a: Lc, b: Lc, shifted: Lc, ge: nat,
                        r: Lc, s: Assignment)
    requires Shaped(c) && Shaped(c1) && Shaped(c2) && Extends(c, c1) && Extends(c1, c2)
    requires Pow2(n + 1) <= p && Comparable(p, None, n, a, b, s)
    requires Meets(p, c1, s) <==> Meets(p, c, s) && s(ge) % p <= 1
    requires Hinted(p, c1, |c.gens|, s) <==> AsHinted(p, Bit(ge, shifted, n), s)
    requires Eval(shifted, s) == Eval(a, s) - Eval(b, s) + Pow2(n)
    requires Eval(r, s) == Eval(a, s) - Eval(b, s) + Pow2(n) * Eval(Sub(Const(1), Var(ge)), s)
    requires AddsAt(p, c1, c2, s, Gated(p, None, r, s) < Pow2(n))
    ensures AddsAt(p, c, c2, s, true)
    ensures Meets(p, c2, s) ==> Value(p, r, s) == (Value(p, a, s) - Value(p, b, s)) % Pow2(n)
  {
    hide Ordered, Indexed, Meets, Hinted, IsPrime, Eval, BitOf, Pow2, Extends;
    BitIsSmall(p, Value(p, shifted, s), n);
    if s(ge) % p <= 1 {
      WrappingSubValues(p, n, a, b, shifted, ge, r, s);
    }
    HintedSplit(p, c, c1, c2, s);
  }

  lemma BitIsSmall(p: Prime, x: nat, n: nat)
    ensures BitOf(x, n) <= 1
  {
  }

  lemma WrappingSubValues(p: Prime, n: nat, a: Lc, b: Lc, shifted: Lc, ge: nat, r: Lc, s: Assignment)
    requires Pow2(n + 1) <= p && Comparable(p, None, n, a, b, s) && s(ge) % p <= 1
    requires Eval(shifted, s) == Eval(a, s) - Eval(b, s) + Pow2(n)
    requires Eval(r, s) == Eval(a, s) - Eval(b, s) + Pow2(n) * Eval(Sub(Const(1), Var(ge)), s)
    ensures Value(p, r, s) < Pow2(n) <==> s(ge) % p == BitOf(Value(p, shifted, s), n)
    ensures Value(p, r, s) < Pow2(n) ==> Value(p, r, s) == (Value(p, a, s) - Value(p, b, s)) % Pow2(n)
  {
    hide IsPrime, Eval, BitOf, Pow2, Cong;
    PowDouble(n);
    var (x, y, t, w) := (Eval(a, s), Eval(b, s), s(ge), Pow2(n));
    assert Eval(Sub(Const(1), Var(ge)), s) == 1 - t;
    assert w * (1 - t) == (1 - t) * w;
    CongSelf(p, Eval(r, s));
    BorrowRows(p, n, x, y, t, Eval(r, s));
  }

  // ----- completions -----

  lemma SameGated(p: Prime, gate: Option<Lc>, x: Lc, n: nat, s: Assignment, t: Assignment)
    requires Below(x, n) && (gate.Some? ==> Below(gate.value, n)) && SameBelow(s, t, n)
    ensures Gated(p, gate, x, s) == Gated(p, gate, x, t)
  {
    SameEval(x, n, s, t);
    if gate.Some? {
      SameEval(gate.value, n, s, t);
    }
  }

  lemma RangeCompletes(p: Prime, c: Circuit, d: Circuit, gate: Option<Lc>, x: Lc, n: nat)
    requires Shaped(c) && Shaped(d) && Extends(c, d) && NoDivision(c, d)
    requires Below(x, c.next) && (gate.Some? ==> Below(gate.value, c.next))
    requires forall s: Assignment :: AddsAt(p, c, d, s, Gated(p, gate, x, s) < Pow2(n))
    ensures forall s: Assignment :: Meets(p, c, s) && Gated(p, gate, x, s) < Pow2(n) ==> Completes(p, c, d, s)
  {
    hide Indexed, Ordered, Extends, NoDivision, Meets, Hinted, Gated, Pow2, Completes;
    forall s: Assignment | Meets(p, c, s) && Gated(p, gate, x, s) < Pow2(n)
      ensures Completes(p, c, d, s)
    {
      forall t: Assignment | SameBelow(s, t, c.next)
        ensures AddsAt(p, c, d, t, true)
      {
        SameGated(p, gate, x, c.next, s, t);
        assert AddsAt(p, c, d, t, Gated(p, gate, x, t) < Pow2(n));
      }
      NoDivisionCompletes(p, c, d, s);
    }
  }

  lemma SameComparable(p: Prime, gate: Option<Lc>, n: nat, a: Lc, b: Lc, m: nat, s: Assignment, t: Assignment)
    requires Below(a, m) && Below(b, m) && (gate.Some? ==> Below(gate.value, m)) && SameBelow(s, t, m)
    ensures Comparable(p, gate, n, a, b, s) <==> Comparable(p, gate, n, a, b, t)
  {
    SameEval(a, m, s, t);
    SameEval(b, m, s, t);
    if gate.Some? {
      SameEval(gate.value, m, s, t);
    }
  }

  lemma ComparedCompletes(p: Prime, c: Circuit, d: Circuit, gate: Option<Lc>, n: nat, a: Lc, b: Lc)
    requires Shaped(c) && Shaped(d) && Extends(c, d) && NoDivision(c, d)
    requires Below(a, c.next) && Below(b, c.next) && (gate.Some? ==> Below(gate.value, c.next))
    requires forall s: Assignment :: Comparable(p, gate, n, a, b, s) ==> AddsAt(p, c, d, s, true)
    ensures forall s: Assignment :: Meets(p, c, s) && Comparable(p, gate, n, a, b, s) ==> Completes(p, c, d, s)
  {
    hide Indexed, Ordered, Extends, NoDivision, Meets, Hinted, Comparable, AddsAt, Completes;
    forall s: Assignment | Meets(p, c, s) && Comparable(p, gate, n, a, b, s)
      ensures Completes(p, c, d, s)
    {
      forall t: Assignment | SameBelow(s, t, c.next)
        ensures AddsAt(p, c, d, t, true)
      {
        SameComparable(p, gate, n, a, b, c.next, s, t);
      }
      NoDivisionCompletes(p, c, d, s);
    }
  }

  /** Two completions of `s` give `r` different values. */
  ghost predicate TwoAnswers(p: Prime, c: Circuit, d: Circuit, r: Lc, s: Assignment)
    requires Indexed(d)
  {
    exists t: Assignment, u: Assignment ::
      && Meets(p, d, t) && SameBelow(s, t, c.next) && Meets(p, d, u) && SameBelow(s, u, c.next)
      && Value(p, r, t) != Value(p, r, u)
  }

  lemma TwoAnswersBy(p: Prime, c: Circuit, d: Circuit, r: Lc, s: Assignment, t: Assignment, u: Assignment)
    requires Indexed(d) && Meets(p, d, t) && SameBelow(s, t, c.next) && Meets(p, d, u) && SameBelow(s, u, c.next)
    requires Value(p, r, t) != Value(p, r, u)
    ensures TwoAnswers(p, c, d, r, s)
  {
  }

  lemma TopComparable(p: Prime, n: nat, a: Lc, b: Lc, s: Assignment)
    requires Value(p, a, s) == Pow2(n) - 1 && Value(p, b, s) == 0
    ensures Comparable(p, None, n, a, b, s)
  {
    hide Value, Pow2;
  }

  lemma AllBorrowsComplete(p: Prime, c: Circuit, c1: Circuit, d: Circuit, n: nat, a: Lc, b: Lc, ge: nat, r: Lc)
    requires Shaped(c) && Shaped(c1) && Shaped(d) && Extends(c, c1) && c.next <= ge < c1.next
    requires Below(a, c.next) && Below(b, c.next) && Below(r, c1.next) && p > Pow2(253) && n <= 253
    requires r == Add(Sub(a, b), Scale(Sub(Const(1), Var(ge)), Pow2(n)))
    requires forall s: Assignment :: Meets(p, c1, s) <==>
      Meets(p, c, s) && s(ge) % p <= 1 && (Live(p, None, s) || s(ge) % p == 0)
    requires forall s: Assignment :: Meets(p, c1, s) && Gated(p, None, r, s) < Pow2(n) ==> Completes(p, c1, d, s)
    ensures forall s: Assignment :: Meets(p, c, s) && Comparable(p, None, n, a, b, s) ==> Completes(p, c, d, s)
    ensures p < Pow2(n + 1) ==> forall s: Assignment ::
      Meets(p, c, s) && Value(p, a, s) == Pow2(n) - 1 && Value(p, b, s) == 0 ==> TwoAnswers(p, c, d, r, s)
  {
    hide Indexed, Ordered, Meets, Pow2, Value, IsPrime, Completes, TwoAnswers, Comparable, Gated, Extends;
    Pow2Mono(n, 253);
    forall t: Assignment
      ensures Eval(r, t) == Eval(a, t) - Eval(b, t) + Pow2(n) * (1 - t(ge))
    {
    }
    hide Eval;
    forall s: Assignment | Meets(p, c, s)
      ensures Comparable(p, None, n, a, b, s) ==> Completes(p, c, d, s)
      ensures p < Pow2(n + 1) && Value(p, a, s) == Pow2(n) - 1 && Value(p, b, s) == 0 ==> TwoAnswers(p, c, d, r, s)
    {
      if Comparable(p, None, n, a, b, s) {
        BorrowCompletes(p, c, c1, d, n, a, b, ge, r, s);
      }
      if Value(p, a, s) == Pow2(n) - 1 && Value(p, b, s) == 0 {
        TopComparable(p, n, a, b, s);
      }
    }
  }

  /** The borrow may be chosen: the choices that leave `r` in range have completions. */
  lemma BorrowCompletes(p: Prime, c: Circuit, c1: Circuit, d: Circuit, n: nat, a: Lc, b: Lc, ge: nat, r: Lc,
                        s: Assignment)
    requires Shaped(c) && Shaped(c1) && Shaped(d) && Extends(c, c1) && c.next <= ge < c1.next
    requires Below(a, c.next) && Below(b, c.next) && Below(r, c1.next)
    requires Pow2(n) < p && Meets(p, c, s) && Comparable(p, None, n, a, b, s)
    requires forall t: Assignment :: Meets(p, c, t) && t(ge) % p <= 1 ==> Meets(p, c1, t)
    requires forall t: Assignment :: Eval(r, t) == Eval(a, t) - Eval(b, t) + Pow2(n) * (1 - t(ge))
    requires forall t: Assignment :: Meets(p, c1, t) && Gated(p, None, r, t) < Pow2(n) ==> Completes(p, c1, d, t)
    ensures Completes(p, c, d, s)
    ensures p < Pow2(n + 1) && Value(p, a, s) == Pow2(n) - 1 && Value(p, b, s) == 0 ==> TwoAnswers(p, c, d, r, s)
  {
    hide Indexed, Ordered, Meets, Pow2, Eval, IsPrime, Completes, TwoAnswers;
    var (x, y, w) := (Value(p, a, s), Value(p, b, s), Pow2(n));
    var borrow := if x >= y then 1 else 0;
    var t := BorrowAt(p, c, c1, d, n, a, b, ge, r, s, borrow);
    if p < Pow2(n + 1) && x == w - 1 && y == 0 {
      PowDouble(n);
      var u := BorrowAt(p, c, c1, d, n, a, b, ge, r, s, 0);
      TwoAnswersBy(p, c, d, r, s, t, u);
    }
    CompletesBy(p, c, d, s, t);
  }

  lemma BorrowAt(p: Prime, c: Circuit, c1: Circuit, d: Circuit, n: nat, a: Lc, b: Lc, ge: nat, r: Lc, s: Assignment,
                 g: nat)
    returns (t: Assignment)
    requires Shaped(c) && Shaped(c1) && Shaped(d) && Extends(c, c1) && c.next <= ge < c1.next
    requires Below(a, c.next) && Below(b, c.next) && Below(r, c1.next) && g <= 1
    requires Meets(p, c, s) && p > 1
    requires var v := Value(p, a, s) - Value(p, b, s) + Pow2(n) * (1 - g);
      0 <= v < Pow2(n) < p || (p <= v && v - p < Pow2(n) < p)
    requires forall t: Assignment :: Meets(p, c, t) && t(ge) % p <= 1 ==> Meets(p, c1, t)
    requires forall t: Assignment :: Eval(r, t) == Eval(a, t) - Eval(b, t) + Pow2(n) * (1 - t(ge))
    requires forall t: Assignment :: Meets(p, c1, t) && Gated(p, None, r, t) < Pow2(n) ==> Completes(p, c1, d, t)
    ensures Meets(p, d, t) && SameBelow(s, t, c.next)
    ensures var v := Value(p, a, s) - Value(p, b, s) + Pow2(n) * (1 - g);
      Value(p, r, t) == if v < Pow2(n) then v else v - p
  {
    hide Indexed, Ordered, Meets, Pow2, Eval, IsPrime;
    var u := With(s, ge, g);
    MeetsBelow(p, c, s, u);
    SameValue(p, a, c.next, s, u);
    SameValue(p, b, c.next, s, u);
    ModSmall(g, p);
    DifferenceValue(p, Eval(a, u), Eval(b, u), Pow2(n), g);
    assert Completes(p, c1, d, u);
    t :| Meets(p, d, t) && SameBelow(u, t, c1.next);
    SameValue(p, r, c1.next, u, t);
  }

  lemma DifferenceValue(p: Prime, x: int, y: int, w: nat, g: nat)
    requires var v := x % p - y % p + w * (1 - g); 0 <= v < w < p || (p <= v && v - p < w < p)
    requires g <= 1
    ensures var v := x % p - y % p + w * (1 - g); (x - y + w * (1 - g)) % p == if v < w then v else v - p
  {
    var v := x % p - y % p + w * (1 - g);
    CongMod(p, x);
    CongMod(p, y);
    CongAdd(p, x, x % p, y, y % p);
    CongAdd(p, x - y, x % p - y % p, w * (1 - g), w * (1 - g));
    if v < w {
      ModSmall(v, p);
    } else {
      ModUnique(v, p, 1, v - p);
    }
  }

  lemma NotConstants(x: Lc, sum: Lc, low: Lc, bits: seq<Lc>, first: nat, n: nat)
    requires |bits| == n >= 1 && bits[0] == low && low == Sub(x, sum) && forall i :: 1 <= i < n ==>
      bits[i] == Var(first + i - 1)
    requires if n > 1 then EndsIn(low, first + n - 2) else sum == Const(0)
    ensures n > 1 || !IsConst(x) ==> PlainBits(bits)
  {
  }

  lemma NoBits(p: Prime, x: nat, s: Assignment)
    ensures AreBitsOf(p, [], x, s)
  {
  }

  lemma NoHighBits(p: Prime, base: nat, x: Lc, s: Assignment)
    ensures HighHinted(p, s, base, 1, Value(p, x, s)) && HighBits(p, s, base, 1) && HighSum(s, base, 1) == 0
      && Pow2(0) == 1
  {
  }

  lemma PowZero()
    ensures Pow2(0) == 1
  {
  }

  lemma PowDouble(k: nat)
    ensures Pow2(k + 1) == 2 * Pow2(k)
  {
  }

  lemma NoHints(p: Prime, c: Circuit, s: Assignment)
    requires Indexed(c)
    ensures Hinted(p, c, |c.gens|, s)
  {
  }

  lemma ZeroBits(p: Prime, x: Lc, s: Assignment)
    ensures Value(p, Const(0), s) == 0 && Pow2(0) == 1
  {
  }

  lemma DecomposeAdds(p: Prime, c: Circuit, c1: Circuit, c2: Circuit, x: Lc, low: Lc, bits: seq<Lc>, s: Assignment,
                      base: nat, n: nat)
    requires p > Pow2(253) && 1 <= n <= 253 && Shaped(c) && Shaped(c1) && Shaped(c2) && Extends(c, c1)
      && Extends(c1, c2)
    requires |bits| == n && bits[0] == low && forall i :: 1 <= i < n ==> bits[i] == Var(base + i - 1)
    requires Eval(low, s) == Eval(x, s) - HighSum(s, base, n)
    requires Meets(p, c1, s) <==> Meets(p, c, s) && HighBits(p, s, base, n)
    requires Hinted(p, c1, |c.gens|, s) <==> HighHinted(p, s, base, n, Value(p, x, s))
    requires AddsAt(p, c1, c2, s, Holds(p, Row(low, Sub(low, Const(1)), Const(0)), s)) && |c2.gens| == |c1.gens|
    ensures AddsAt(p, c, c2, s, Value(p, x, s) < Pow2(n))
    ensures Meets(p, c2, s) ==> AreBitsOf(p, bits, Value(p, x, s), s)
  {
    hide Ordered, Indexed, Meets, IsPrime, Value, Eval, Pow2, AreBitsOf, HighSum, HighBits, HighHinted, Holds;
    Pow2Mono(n, 253);
    BooleanForm(p, low, s);
    HintedSplit(p, c, c1, c2, s);
    DecompositionRows(p, x, low, s, base, n);
    if Meets(p, c2, s) {
      DecomposedBits(p, x, low, bits, s, base, n);
    }
  }

  lemma HighBitAdds(p: Prime, c: Circuit, c1: Circuit, c2: Circuit, c3: Circuit, x: Lc, s: Assignment, base: nat,
                    i: nat)
    requires Shaped(c) && Shaped(c1) && Shaped(c2) && Shaped(c3) && Extends(c, c1) && Extends(c1, c2) && Extends(c2, c3)
    requires i >= 1 && |c3.gens| == |c2.gens|
    requires Meets(p, c1, s) <==> Meets(p, c, s) && HighBits(p, s, base, i)
    requires Hinted(p, c1, |c.gens|, s) <==> HighHinted(p, s, base, i, Value(p, x, s))
    requires Meets(p, c2, s) <==> Meets(p, c1, s)
    requires Hinted(p, c2, |c1.gens|, s) <==> AsHinted(p, Bit(base + i - 1, x, i), s)
    requires Meets(p, c3, s) <==> Meets(p, c2, s) && s(base + i - 1) % p <= 1
    ensures Meets(p, c3, s) <==> Meets(p, c, s) && HighBits(p, s, base, i + 1)
    ensures Hinted(p, c3, |c.gens|, s) <==> HighHinted(p, s, base, i + 1, Value(p, x, s))
  {
    hide Ordered, Indexed, Meets, IsPrime, Value, BitOf, Hinted;
    HintedSplit(p, c, c1, c2, s);
    ExtendsTrans(c, c1, c2);
    HintedSplit(p, c, c2, c3, s);
    SameGens(p, c2, c3, s);
  }

  lemma SameGens(p: Prime, c: Circuit, d: Circuit, s: Assignment)
    requires Indexed(c) && Indexed(d) && |d.gens| == |c.gens|
    ensures Hinted(p, d, |c.gens|, s)
  {
  }

  lemma DecomposedBits(p: Prime, x: Lc, low: Lc, bits: seq<Lc>, s: Assignment, base: nat, n: nat)
    requires |bits| == n >= 1 && bits[0] == low && forall i :: 1 <= i < n ==> bits[i] == Var(base + i - 1)
    requires Value(p, low, s) == BitOf(Value(p, x, s), 0) && HighHinted(p, s, base, n, Value(p, x, s))
    ensures AreBitsOf(p, bits, Value(p, x, s), s)
  {
    forall i | 0 <= i < n
      ensures Value(p, bits[i], s) == BitOf(Value(p, x, s), i)
    {
      if i > 0 {
        assert Eval(bits[i], s) == s(base + i - 1);
      }
    }
  }

  lemma OneBit(p: Prime, c: Circuit, bits: seq<Lc>, x: Lc)
    requires Indexed(c) && |bits| >= 1
    requires forall s: Assignment :: Meets(p, c, s) ==> AreBitsOf(p, bits, Value(p, x, s), s)
    ensures IsBit(p, c, bits[0])
  {
  }

  lemma DecomposedAreBits(p: Prime, c: Circuit, bits: seq<Lc>, x: Lc, top: nat)
    requires Indexed(c) && |bits| >= 2 && EndsIn(bits[0], top) && PlainBits(bits)
    requires forall i :: 0 <= i < |bits| ==> Below(bits[i], c.next)
    requires forall s: Assignment :: Meets(p, c, s) ==> AreBitsOf(p, bits, Value(p, x, s), s)
    ensures OkBits(p, c, top, bits)
  {
    forall i | 0 <= i < |bits|
      ensures IsBit(p, c, bits[i])
    {
      forall s: Assignment | Meets(p, c, s)
        ensures Value(p, bits[i], s) <= 1
      {
        assert Value(p, bits[i], s) == BitOf(Value(p, x, s), i);
      }
    }
  }

  lemma LearnDecomposition(p: Prime, c: Circuit, k: Caches, top: nat, bits: seq<Lc>)
    requires Indexed(c) && OkCaches(p, c, k) && OkBits(p, c, top, bits)
    ensures OkCaches(p, c, k.(computed := k.computed[top := bits]))
  {
  }

  lemma NotValue(p: Prime, g: Lc, v: nat, s: Assignment)
    requires Value(p, g, s) <= 1
    ensures Value(p, Sub(Const(1), g), s) == 1 - Value(p, g, s)
    ensures Value(p, Var(v), s) == s(v) % p && Value(p, Const(0), s) == 0
  {
    hide IsPrime, Canonical, Mentions, Below;
    OneMinusBit(p, Eval(g, s));
  }

  /** `x` where `gate` is 1, and 0 where it is 0. */
  ghost function Gated(p: Prime, gate: Option<Lc>, x: Lc, s: Assignment): (r: nat)
    ensures r < p
  {
    match gate
    case None => Value(p, x, s)
    case Some(g) => (Eval(g, s) * Eval(x, s)) % p
  }

  lemma PendingIsOk(p: Prime, c: Circuit, k: Caches, v: nat)
    requires Indexed(c) && OkCaches(p, c, k) && v in k.pending
    ensures OkPending(c, v, k.pending[v].0, k.pending[v].1)
  {
  }

  /** What is remembered after a merge. */
  lemma MergeCaches(p: Prime, c: Circuit, k: Caches, v: nat, slot: nat, row: nat, target: Lc)
    requires Shaped(c) && OkCaches(p, c, k) && v in k.pending && k.pending[v] == (row, slot)
    requires OkPending(c, v, row, slot) && Below(target, c.next)
    ensures var d := Merge(c, v, slot, row, target); Shaped(d) && OkCaches(p, d, k.(pending := k.pending - {v}))
  {
    hide Ordered, Eval, Meets, IsPrime, OkBits, Below;
    var d := Merge(c, v, slot, row, target);
    MergeMeets(p, c, v, slot, row, target);
    var k1 := k.(pending := k.pending - {v});
    forall u | u in k1.pending
      ensures OkPending(d, u, k.pending[u].0, k.pending[u].1)
    {
      assert OkPending(c, u, k.pending[u].0, k.pending[u].1);
      assert k.pending[u].0 != row by {
        assert Var(u).terms[0].v == u && Var(v).terms[0].v == v;
      }
    }
    CachesStay(p, c, d, k1);
  }

  lemma BooleanityIsBit(p: Prime, c: Circuit, row: nat, v: nat)
    requires Indexed(c) && row < |c.rows| && c.rows[row] == Row(Var(v), Var(v), Var(v))
    ensures v < c.next && IsBit(p, c, Var(v))
  {
    assert RowBelow(c.rows[row], c.next) && Var(v).terms[0].v == v;
    forall s: Assignment | Meets(p, c, s)
      ensures Value(p, Var(v), s) <= 1
    {
      assert Holds(p, c.rows[row], s);
      BooleanRow(p, v, s);
    }
  }

  lemma XorRow(p: Prime, a: Lc, b: Lc, c: nat, s: Assignment)
    ensures Holds(p, Row(Scale(a, 2), b, Sub(Add(a, b), Var(c))), s) <==> AsHinted(p, Xor(c, a, b), s)
  {
    var (x, y, z) := (Eval(a, s), Eval(b, s), s(c));
    CongIff(p, (2 * x) * y, x + y - z);
    CongIff(p, x + y - 2 * x * y, z);
    assert (2 * x) * y - (x + y - z) == -((x + y - 2 * x * y) - z);
    NegDivides(p, (x + y - 2 * x * y) - z);
  }

  lemma OrRow(p: Prime, a: Lc, b: Lc, c: nat, s: Assignment)
    ensures Holds(p, Row(a, b, Sub(Add(a, b), Var(c))), s) <==> AsHinted(p, Or(c, a, b), s)
  {
    var (x, y, z) := (Eval(a, s), Eval(b, s), s(c));
    CongIff(p, x * y, x + y - z);
    CongIff(p, x + y - x * y, z);
    assert x * y - (x + y - z) == -((x + y - x * y) - z);
    NegDivides(p, (x + y - x * y) - z);
  }

  /** Bits stand for themselves modulo `p`. */
  lemma BitValues(p: Prime, a: Lc, b: Lc, s: Assignment)
    requires Value(p, a, s) <= 1 && Value(p, b, s) <= 1
    ensures var (x, y) := (Value(p, a, s), Value(p, b, s));
      && Cong(p, Eval(a, s) + Eval(b, s) - 2 * Eval(a, s) * Eval(b, s), if x == y then 0 else 1)
      && Cong(p, Eval(a, s) + Eval(b, s) - Eval(a, s) * Eval(b, s), if x + y > 0 then 1 else 0)
  {
    var (x, y, u, v) := (Value(p, a, s), Value(p, b, s), Eval(a, s), Eval(b, s));
    CongMod(p, u);
    CongMod(p, v);
    CongMul(p, u, x, v, y);
    CongMul(p, 2, 2, u * v, x * y);
    assert 2 * u * v == 2 * (u * v);
    CongAdd(p, u, x, v, y);
    CongAdd(p, u + v, x + y, 2 * (u * v), 2 * (x * y));
    CongAdd(p, u + v, x + y, u * v, x * y);
  }

  lemma CongBit(p: Prime, z: int, e: int, b: int)
    requires Cong(p, z, e) && Cong(p, e, b) && 0 <= b <= 1
    ensures z % p == b
  {
    ModSmall(b, p);
  }

  lemma XorIsBit(p: Prime, d: Circuit, a: Lc, b: Lc, c: nat)
    requires Indexed(d) && IsBit(p, d, a) && IsBit(p, d, b)
    requires forall s: Assignment :: Meets(p, d, s) ==> AsHinted(p, Xor(c, a, b), s)
    ensures IsBit(p, d, Var(c))
  {
    hide Eval, Meets, IsPrime;
    forall s: Assignment | Meets(p, d, s)
      ensures Value(p, Var(c), s) <= 1
    {
      BitValues(p, a, b, s);
      CongBit(p, s(c), Eval(a, s) + Eval(b, s) - 2 * Eval(a, s) * Eval(b, s), if Value(p, a, s) == Value(p, b, s) then 0
        else 1);
    }
  }

  lemma OrIsBit(p: Prime, d: Circuit, a: Lc, b: Lc, c: nat)
    requires Indexed(d) && IsBit(p, d, a) && IsBit(p, d, b)
    requires forall s: Assignment :: Meets(p, d, s) ==> AsHinted(p, Or(c, a, b), s)
    ensures IsBit(p, d, Var(c))
  {
    hide Eval, Meets, IsPrime;
    forall s: Assignment | Meets(p, d, s)
      ensures Value(p, Var(c), s) <= 1
    {
      BitValues(p, a, b, s);
      CongBit(p, s(c), Eval(a, s) + Eval(b, s) - Eval(a, s) * Eval(b, s), if Value(p, a, s) + Value(p, b, s) > 0 then 1
        else 0);
    }
  }

  // ----- powers -----

  lemma PowerUnit(p: Prime, x: int)
    ensures Cong(p, 1, Power(x, 0))
  {
  }

  /** The square-and-multiply invariant: `acc · b^e` is `base^n`. */
  ghost predicate PowerSoFar(p: Prime, base: Lc, n: nat, acc: Option<Lc>, b: Lc, e: nat, s: Assignment) {
    Cong(p, (match acc case Some(x) => Eval(x, s) case None => 1) * Power(Eval(b, s), e), Power(Eval(base, s), n))
  }

  lemma PowerStart(p: Prime, base: Lc, n: nat, s: Assignment)
    ensures PowerSoFar(p, base, n, None, base, n, s)
  {
  }

  lemma PowerDone(p: Prime, base: Lc, n: nat, acc: Option<Lc>, b: Lc, s: Assignment)
    requires acc.Some? && PowerSoFar(p, base, n, acc, b, 0, s)
    ensures Cong(p, Eval(acc.value, s), Power(Eval(base, s), n))
  {
  }

  lemma PowerHalves(x: int, e: nat)
    ensures Power(x, e) == (if e % 2 == 0 then 1 else x) * Power(x, 2 * (e / 2))
  {
    assert e == 2 * (e / 2) + e % 2;
  }

  lemma PowerNext(p: Prime, base: Lc, n: nat, acc: Option<Lc>, b: Lc, e: nat, acc1: Option<Lc>, b1: Lc, s: Assignment)
    requires e > 0 && PowerSoFar(p, base, n, acc, b, e, s)
    requires if e % 2 == 0 then acc1 == acc
             else acc1.Some? && (if acc.None? then acc1.value == b
               else Cong(p, Eval(acc1.value, s), Eval(acc.value, s) * Eval(b, s)))
    requires if e / 2 == 0 then b1 == b else Cong(p, Eval(b1, s), Eval(b, s) * Eval(b, s))
    ensures PowerSoFar(p, base, n, acc1, b1, e / 2, s)
  {
    hide Eval, IsPrime, Power;
    var (x, h) := (Eval(b, s), e / 2);
    var (a, a1) := (match acc case Some(v) => Eval(v, s) case None => 1,
      match acc1 case Some(v) => Eval(v, s) case None => 1);
    var odd := if e % 2 == 0 then 1 else x;
    assert Cong(p, a1, a * odd);
    assert Cong(p, Power(Eval(b1, s), h), Power(x, 2 * h)) by {
      if h > 0 {
        PowerCong(p, Eval(b1, s), x * x, h);
        PowerSquare(x, h);
      }
    }
    CongMul(p, a1, a * odd, Power(Eval(b1, s), h), Power(x, 2 * h));
    PowerHalves(x, e);
    assert (a * odd) * Power(x, 2 * h) == a * (odd * Power(x, 2 * h));
  }

  /** `x` is 0, 1, a proven bit, a decomposition's computed bit 0, or one minus such a bit. */
  predicate IsBooleanLc(booleans: set<nat>, computed: map<nat, seq<Lc>>, x: Lc) {
    if x.terms == [] then x.constant == 0 || x.constant == 1
    else
      var t := x.terms[|x.terms| - 1];
      if |x.terms| == 1
        then t.v in booleans && ((x.constant == 0 && t.coeff == 1) || (x.constant == 1 && t.coeff == -1))
      else
        t.v in computed && computed[t.v] != []
        && (Sub(x, computed[t.v][0]) == Const(0) || Sub(Add(x, computed[t.v][0]), Const(1)) == Const(0))
  }

  lemma BooleanLcIsBit(p: Prime, c: Circuit, k: Caches, x: Lc)
    requires Indexed(c) && OkCaches(p, c, k) && IsBooleanLc(k.booleans, k.computed, x)
    ensures IsBit(p, c, x)
  {
    if x.terms == [] {
      forall s: Assignment
        ensures Value(p, x, s) <= 1
      {
        ConstEval(x, s);
      }
    } else {
      var t := x.terms[|x.terms| - 1];
      if |x.terms| == 1 {
        SingleBit(p, c, x, t.v);
      } else {
        assert OkBits(p, c, t.v, k.computed[t.v]);
        ComputedBit(p, c, x, k.computed[t.v][0]);
      }
    }
  }

  /** What is remembered after a fresh product. */
  lemma ProductCaches(p: Prime, c: Circuit, k: Caches, l: Lc, r: Lc, k1: Caches)
    requires Shaped(c) && OkCaches(p, c, k) && Below(l, c.next) && Below(r, c.next)
    requires k1.pending == k.pending[c.next := (|c.rows|, |c.gens|)] && k1.computed == k.computed
    requires forall h :: h in k1.products ==>
      k1.products[h] == (c.next, |c.rows|) || (h in k.products && k1.products[h] == k.products[h])
    requires k1.booleans == k.booleans || (k1.booleans == k.booleans + {c.next}
                                           && IsBooleanLc(k.booleans, k.computed, l)
                                             && IsBooleanLc(k.booleans, k.computed, r))
    ensures var d := AddProduct(c, l, r); Shaped(d) && OkCaches(p, d, k1)
  {
    hide Ordered, Eval, Meets, IsPrime, OkBits, Below;
    var d := AddProduct(c, l, r);
    AddProductMeets(p, c, l, r);
    forall v | v in k.pending
      ensures OkPending(d, v, k.pending[v].0, k.pending[v].1)
    {
      assert OkPending(c, v, k.pending[v].0, k.pending[v].1);
    }
    CachesStay(p, c, d, k);
    if k1.booleans != k.booleans {
      BooleanLcIsBit(p, d, k, l);
      BooleanLcIsBit(p, d, k, r);
      BooleansMultiply(p, d, l, r, c.next);
    }
  }

  lemma SameProduct(p: Prime, l: Lc, r: Lc, lhs: Lc, rhs: Lc, out: nat, s: Assignment)
    requires Value(p, l, s) == Value(p, lhs, s) && Value(p, r, s) == Value(p, rhs, s)
    requires Cong(p, s(out), Eval(l, s) * Eval(r, s))
    ensures Cong(p, s(out), Eval(lhs, s) * Eval(rhs, s))
  {
    CongMul(p, Eval(l, s), Eval(lhs, s), Eval(r, s), Eval(rhs, s));
  }

  lemma SingleBit(p: Prime, c: Circuit, x: Lc, v: nat)
    requires Indexed(c) && IsBit(p, c, Var(v)) && |x.terms| == 1 && x.terms[0].v == v
    requires (x.constant == 0 && x.terms[0].coeff == 1) || (x.constant == 1 && x.terms[0].coeff == -1)
    ensures IsBit(p, c, x)
  {
    forall s: Assignment | Meets(p, c, s)
      ensures Value(p, x, s) <= 1
    {
      assert Value(p, Var(v), s) <= 1;
      assert x.terms[1..] == [];
      assert SumTerms(x.terms, s) == x.terms[0].coeff * s(v);
      if x.constant == 1 {
        OneMinusBit(p, s(v));
      }
    }
  }

  lemma OneMinusBit(p: Prime, x: int)
    requires x % p <= 1
    ensures (1 - x) % p == 1 - x % p
  {
    CongMod(p, x);
    CongAdd(p, 1, 1, x, x % p);
    ModSmall(1 - x % p, p);
  }

  lemma ComputedBit(p: Prime, c: Circuit, x: Lc, b: Lc)
    requires Indexed(c) && IsBit(p, c, b)
    requires Sub(x, b) == Const(0) || Sub(Add(x, b), Const(1)) == Const(0)
    ensures IsBit(p, c, x)
  {
    forall s: Assignment | Meets(p, c, s)
      ensures Value(p, x, s) <= 1
    {
      assert Value(p, b, s) <= 1;
      if Sub(x, b) == Const(0) {
        assert Eval(Sub(x, b), s) == 0;
      } else {
        assert Eval(Sub(Add(x, b), Const(1)), s) == 0;
        OneMinusBit(p, Eval(b, s));
      }
    }
  }

  /** A product of bits is a bit. */
  lemma BooleansMultiply(p: Prime, c: Circuit, l: Lc, r: Lc, out: nat)
    requires Indexed(c) && IsBit(p, c, l) && IsBit(p, c, r)
    requires forall s: Assignment :: Meets(p, c, s) ==> Cong(p, s(out), Eval(l, s) * Eval(r, s))
    ensures IsBit(p, c, Var(out))
  {
    forall s: Assignment | Meets(p, c, s)
      ensures Value(p, Var(out), s) <= 1
    {
      var (x, y) := (Value(p, l, s), Value(p, r, s));
      CongMod(p, Eval(l, s));
      CongMod(p, Eval(r, s));
      CongMul(p, Eval(l, s), x, Eval(r, s), y);
      assert x * y == if x == 0 then 0 else y;
      ModSmall(x * y, p);
    }
  }
}
