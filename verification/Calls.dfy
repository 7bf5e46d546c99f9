/**
 * Sequences of product and equality calls. A plain builder gives each product a variable and a row of its
 * own, and each equality its own row; reuse and merging change neither what values can be taken.
 */
module Calls {
  import opened Words
  import opened Fields
  import opened Linear
  import opened Circuits
  import opened Solving
  import opened Builder

  /** Operands are forms over the values so far: the inputs, then each product's result. */
  datatype Call = Times(l: Lc, r: Lc) | Same(l: Lc, r: Lc) | SameWhere(g: Lc, l: Lc, r: Lc)

  ghost predicate OkCall(call: Call, n: nat) {
    Below(call.l, n) && Below(call.r, n) && (call.SameWhere? ==> Below(call.g, n))
  }

  /** How many values there are after `calls`, from `n` inputs. */
  function Values(calls: seq<Call>, n: nat): nat {
    if calls == [] then n
    else var m := Values(calls[..|calls| - 1], n); if calls[|calls| - 1].Times? then m + 1 else m
  }

  ghost predicate OkCalls(calls: seq<Call>, n: nat) {
    forall i :: 0 <= i < |calls| ==> OkCall(calls[i], Values(calls[..i], n))
  }

  /** The row of a plain builder that has `n` values so far. */
  function PlainRow(call: Call, n: nat): Row {
    match call
    case Times(l, r) => Row(l, r, Var(n))
    case Same(l, r) => EqualRow(l, r)
    case SameWhere(g, l, r) => Row(g, Sub(l, r), Const(0))
  }

  /** `v` satisfies every row of the plain builder. */
  ghost predicate PlainMeets(p: Prime, calls: seq<Call>, n: nat, v: Assignment) {
    forall i :: 0 <= i < |calls| ==> Holds(p, PlainRow(calls[i], Values(calls[..i], n)), v)
  }

  /** `x` with value `i` read from variable `vars[i]`. */
  function Placed(x: Lc, vars: seq<nat>): Lc
    requires forall i :: 0 <= i < |x.terms| ==> x.terms[i].v < |vars|
  {
    Add(Const(x.constant), PlacedTerms(x.terms, vars))
  }

  function PlacedTerms(terms: seq<Term>, vars: seq<nat>): Lc
    requires forall i :: 0 <= i < |terms| ==> terms[i].v < |vars|
  {
    if terms == [] then Const(0)
    else Add(Scale(Var(vars[terms[0].v]), terms[0].coeff), PlacedTerms(terms[1..], vars))
  }

  /** The values a builder's variables give. */
  ghost function Seen(vars: seq<nat>, s: Assignment): Assignment {
    (i: nat) => if i < |vars| then s(vars[i]) else 0
  }

  lemma {:induction false} PlacedTermsEval(terms: seq<Term>, vars: seq<nat>, s: Assignment)
    requires forall i :: 0 <= i < |terms| ==> terms[i].v < |vars|
    ensures Eval(PlacedTerms(terms, vars), s) == SumTerms(terms, Seen(vars, s))
  {
    if terms != [] {
      PlacedTermsEval(terms[1..], vars, s);
      assert Eval(Var(vars[terms[0].v]), s) == Seen(vars, s)(terms[0].v);
    }
  }

  lemma PlacedEval(x: Lc, vars: seq<nat>)
    requires Below(x, |vars|)
    ensures forall s: Assignment :: Eval(Placed(x, vars), s) == Eval(x, Seen(vars, s))
  {
    forall s: Assignment
      ensures Eval(Placed(x, vars), s) == Eval(x, Seen(vars, s))
    {
      PlacedTermsEval(x.terms, vars, s);
    }
  }

  ghost predicate AllBelow(vars: seq<nat>, n: nat) {
    forall i :: 0 <= i < |vars| ==> vars[i] < n
  }

  lemma {:induction false} PlacedTermsBelow(terms: seq<Term>, vars: seq<nat>, n: nat)
    requires (forall i :: 0 <= i < |terms| ==> terms[i].v < |vars|) && AllBelow(vars, n)
    ensures Below(PlacedTerms(terms, vars), n)
  {
    if terms != [] {
      PlacedTermsBelow(terms[1..], vars, n);
    }
  }

  // ----- equivalence -----

  /** The values `v`, of which `vars` hold the first, come from a solution that starts like `s0`. */
  ghost predicate Comes(p: Prime, c: Circuit, vars: seq<nat>, s0: Assignment, n0: nat, v: Assignment)
    requires Indexed(c)
  {
    exists s: Assignment :: Meets(p, c, s) && SameBelow(s0, s, n0) && CongBelow(p, Seen(vars, s), v, |vars|)
  }

  /** The builder, after `calls` on the variables `inputs` of `c0`, has exactly the plain builder's
      solutions: each of its own gives one of the plain rows, and each of theirs comes from one of its own. */
  ghost predicate Equivalent(p: Prime, c0: Circuit, c: Circuit, inputs: seq<nat>, vars: seq<nat>, calls: seq<Call>)
    requires Indexed(c0) && Indexed(c)
  {
    && (forall s: Assignment :: Meets(p, c, s) ==> Meets(p, c0, s) && PlainMeets(p, calls, |inputs|, Seen(vars, s)))
    && (forall s: Assignment, v: Assignment ::
          Meets(p, c0, s) && CongBelow(p, Seen(inputs, s), v, |inputs|) && PlainMeets(p, calls, |inputs|, v)
          ==> Comes(p, c, vars, s, c0.next, v))
  }

  /** Emit one call. */
  method Emit(b: Builder, call: Call, vars: seq<nat>) returns (more: seq<nat>)
    requires b.Valid() && AllBelow(vars, b.next) && OkCall(call, |vars|)
    modifies b
    ensures b.Valid() && b.next >= old(b.next) && AllBelow(more, b.next) && vars <= more
    ensures Extends(old(b.Snap()), b.Snap()) && Adds(b.p, old(b.Snap()), b.Snap(), call, vars, more)
  {
    hide Ordered, Indexed, OkCaches, Meets, Hinted, IsPrime, Eval, Value, Pow2, Cong, Extends;
    ghost var c := b.Snap();
    PlacedBelow(call.l, vars, b.next);
    PlacedBelow(call.r, vars, b.next);
    var (l, r) := (Placed(call.l, vars), Placed(call.r, vars));
    match call {
      case Times(_, _) =>
        var v := b.EmitMul(l, r);
        more := vars + [v];
        TimesAdds(b.p, c, b.Snap(), call, vars, v);
      case Same(_, _) =>
        b.EmitRequireEq(l, r);
        more := vars;
        SameAdds(b.p, c, b.Snap(), call, vars);
      case SameWhere(g0, _, _) =>
        PlacedBelow(g0, vars, b.next);
        b.EmitRequireEqGated(Placed(g0, vars), l, r);
        more := vars;
        SameWhereAdds(b.p, c, b.Snap(), call, vars);
    }
  }

  /** What one call adds to the circuit `c`: its plain row, of the values the variables hold. */
  ghost predicate Adds(p: Prime, c: Circuit, d: Circuit, call: Call, vars: seq<nat>, more: seq<nat>)
    requires Indexed(c) && Indexed(d)
  {
    && vars <= more && |more| == (if call.Times? then |vars| + 1 else |vars|)
    && NoDivision(c, d) && (!call.Times? ==> |d.gens| == |c.gens|)
    && forall s: Assignment ::
         && AddsAt(p, c, d, s, call.Times? || Holds(p, PlainRow(call, |vars|), Seen(vars, s)))
         && (call.Times? && Meets(p, d, s) ==> Holds(p, PlainRow(call, |vars|), Seen(more, s)))
  }

  lemma PlacedBelow(x: Lc, vars: seq<nat>, n: nat)
    requires Below(x, |vars|) && AllBelow(vars, n)
    ensures Below(Placed(x, vars), n)
  {
    PlacedTermsBelow(x.terms, vars, n);
  }

  lemma SeenMore(vars: seq<nat>, v: nat, x: Lc, s: Assignment)
    requires Below(x, |vars|)
    ensures Eval(x, Seen(vars + [v], s)) == Eval(x, Seen(vars, s)) && Seen(vars + [v], s)(|vars|) == s(v)
  {
    SameEval(x, |vars|, Seen(vars + [v], s), Seen(vars, s));
  }

  lemma TimesAdds(p: Prime, c: Circuit, d: Circuit, call: Call, vars: seq<nat>, v: nat)
    requires Indexed(c) && Indexed(d) && NoDivision(c, d) && call.Times? && OkCall(call, |vars|)
    requires forall s: Assignment :: AddsAt(p, c, d, s, true)
    requires forall s: Assignment :: Meets(p, d, s) ==>
               Cong(p, s(v), Eval(Placed(call.l, vars), s) * Eval(Placed(call.r, vars), s))
    ensures Adds(p, c, d, call, vars, vars + [v])
  {
    hide Indexed, Meets, Hinted, IsPrime, Eval;
    PlacedEval(call.l, vars);
    PlacedEval(call.r, vars);
    forall s: Assignment | Meets(p, d, s)
      ensures Holds(p, PlainRow(call, |vars|), Seen(vars + [v], s))
    {
      SeenMore(vars, v, call.l, s);
      SeenMore(vars, v, call.r, s);
    }
  }

  lemma PlacedValue(p: Prime, x: Lc, vars: seq<nat>, s: Assignment)
    requires Below(x, |vars|)
    ensures Value(p, Placed(x, vars), s) == Value(p, x, Seen(vars, s))
  {
    PlacedEval(x, vars);
  }

  lemma SameAdds(p: Prime, c: Circuit, d: Circuit, call: Call, vars: seq<nat>)
    requires Indexed(c) && Indexed(d) && |d.gens| == |c.gens| && call.Same? && OkCall(call, |vars|)
    requires forall s: Assignment ::
               AddsAt(p, c, d, s, Value(p, Placed(call.l, vars), s) == Value(p, Placed(call.r, vars), s))
    ensures Adds(p, c, d, call, vars, vars)
  {
    hide Indexed, Meets, Hinted, IsPrime, Eval, Value, Holds, AddsAt, Sub, Placed, Seen;
    forall s: Assignment
      ensures AddsAt(p, c, d, s, Holds(p, PlainRow(call, |vars|), Seen(vars, s)))
    {
      PlacedValue(p, call.l, vars, s);
      PlacedValue(p, call.r, vars, s);
      EqualRowHolds(p, call.l, call.r, Seen(vars, s));
    }
  }

  lemma SameWhereAdds(p: Prime, c: Circuit, d: Circuit, call: Call, vars: seq<nat>)
    requires Indexed(c) && Indexed(d) && |d.gens| == |c.gens| && call.SameWhere? && OkCall(call, |vars|)
    requires forall s: Assignment ::
               AddsAt(p, c, d, s, Value(p, Placed(call.g, vars), s) != 0 ==>
                                    Value(p, Placed(call.l, vars), s) == Value(p, Placed(call.r, vars), s))
    ensures Adds(p, c, d, call, vars, vars)
  {
    hide Indexed, Meets, Hinted, IsPrime, Eval, Value, Holds, AddsAt, Sub, Placed, Seen;
    forall s: Assignment
      ensures AddsAt(p, c, d, s, Holds(p, PlainRow(call, |vars|), Seen(vars, s)))
    {
      PlacedValue(p, call.g, vars, s);
      PlacedValue(p, call.l, vars, s);
      PlacedValue(p, call.r, vars, s);
      GatedRowHolds(p, call.g, call.l, call.r, Seen(vars, s));
    }
  }

  /** A plain row only sees residues. */
  lemma PlainRowCong(p: Prime, call: Call, n: nat, v: Assignment, w: Assignment)
    requires OkCall(call, n) && CongBelow(p, v, w, n) && (call.Times? ==> Cong(p, v(n), w(n)))
    ensures Holds(p, PlainRow(call, n), v) <==> Holds(p, PlainRow(call, n), w)
  {
    hide Eval, IsPrime, Value;
    CongEval(p, call.l, n, v, w);
    CongEval(p, call.r, n, v, w);
    match call {
      case Times(l, r) =>
        CongMul(p, Eval(l, v), Eval(l, w), Eval(r, v), Eval(r, w));
      case Same(l, r) =>
        EqualRowHolds(p, l, r, v);
        EqualRowHolds(p, l, r, w);
      case SameWhere(g, l, r) =>
        CongEval(p, g, n, v, w);
        GatedRowHolds(p, g, l, r, v);
        GatedRowHolds(p, g, l, r, w);
    }
  }

  lemma PlainSnoc(p: Prime, calls: seq<Call>, call: Call, n: nat, v: Assignment)
    ensures PlainMeets(p, calls + [call], n, v)
       <==> PlainMeets(p, calls, n, v) && Holds(p, PlainRow(call, Values(calls, n)), v)
    ensures Values(calls + [call], n) == if call.Times? then Values(calls, n) + 1 else Values(calls, n)
  {
    var all := calls + [call];
    assert all[..|calls|] == calls;
    forall i | 0 <= i < |calls|
      ensures all[i] == calls[i] && all[..i] == calls[..i]
    {
    }
    if PlainMeets(p, all, n, v) {
      forall i | 0 <= i < |calls|
        ensures Holds(p, PlainRow(calls[i], Values(calls[..i], n)), v)
      {
        assert Holds(p, PlainRow(all[i], Values(all[..i], n)), v);
      }
      assert Holds(p, PlainRow(all[|calls|], Values(all[..|calls|], n)), v);
    }
  }

  lemma {:induction false} ValuesMono(calls: seq<Call>, n: nat, i: nat)
    requires i <= |calls|
    ensures n <= Values(calls[..i], n) <= Values(calls, n)
    ensures i < |calls| && calls[i].Times? ==> Values(calls[..i], n) < Values(calls, n)
    decreases |calls|
  {
    if i < |calls| {
      var most := calls[..|calls| - 1];
      assert most[..i] == calls[..i];
      ValuesMono(most, n, i);
    } else {
      assert calls[..i] == calls;
      if calls != [] {
        ValuesMono(calls[..|calls| - 1], n, |calls| - 1);
        assert calls[..|calls| - 1][..|calls| - 1] == calls[..|calls| - 1];
      }
    }
  }

  /** Plain rows only see the values there are. */
  lemma PlainCong(p: Prime, calls: seq<Call>, n: nat, v: Assignment, w: Assignment)
    requires OkCalls(calls, n) && CongBelow(p, v, w, Values(calls, n)) && PlainMeets(p, calls, n, v)
    ensures PlainMeets(p, calls, n, w)
  {
    forall i | 0 <= i < |calls|
      ensures Holds(p, PlainRow(calls[i], Values(calls[..i], n)), w)
    {
      ValuesMono(calls, n, i);
      assert Holds(p, PlainRow(calls[i], Values(calls[..i], n)), v);
      PlainRowCong(p, calls[i], Values(calls[..i], n), v, w);
    }
  }

  lemma Forwards(p: Prime, c: Circuit, d: Circuit, n: nat, vars: seq<nat>, more: seq<nat>, calls: seq<Call>, call: Call,
                 s: Assignment)
    requires Indexed(c) && Indexed(d) && Adds(p, c, d, call, vars, more) && OkCalls(calls, n)
    requires |vars| == Values(calls, n) && OkCall(call, |vars|)
    requires Meets(p, c, s) ==> PlainMeets(p, calls, n, Seen(vars, s))
    requires Meets(p, d, s)
    ensures Meets(p, c, s) && PlainMeets(p, calls + [call], n, Seen(more, s))
  {
    hide Indexed, Meets, Hinted, IsPrime, Eval, Holds, NoDivision, PlainMeets, CongBelow, Seen, PlainRow, OkCalls,
      OkCall, AddsAt;
    SeenPrefix(p, vars, more, s);
    AddsRow(p, c, d, call, vars, more, s);
    PlainSnoc(p, calls, call, n, Seen(more, s));
    PlainCong(p, calls, n, Seen(vars, s), Seen(more, s));
    if !call.Times? {
      PlainRowCong(p, call, |vars|, Seen(vars, s), Seen(more, s));
    }
  }

  lemma SeenPrefix(p: Prime, vars: seq<nat>, more: seq<nat>, s: Assignment)
    requires vars <= more
    ensures CongBelow(p, Seen(vars, s), Seen(more, s), |vars|)
  {
  }

  lemma AddsRow(p: Prime, c: Circuit, d: Circuit, call: Call, vars: seq<nat>, more: seq<nat>, s: Assignment)
    requires Indexed(c) && Indexed(d) && Adds(p, c, d, call, vars, more) && Meets(p, d, s)
    ensures Meets(p, c, s) && Holds(p, PlainRow(call, |vars|), if call.Times? then Seen(more, s) else Seen(vars, s))
  {
    hide Indexed, Meets, Hinted, Holds, Seen, PlainRow;
    assert AddsAt(p, c, d, s, call.Times? || Holds(p, PlainRow(call, |vars|), Seen(vars, s)));
  }

  lemma Backwards(p: Prime, c: Circuit, d: Circuit, n0: nat, vars: seq<nat>, more: seq<nat>, call: Call, s0: Assignment,
                  v: Assignment)
    requires Shaped(c) && Shaped(d) && Extends(c, d) && Adds(p, c, d, call, vars, more)
    requires AllBelow(vars, c.next) && n0 <= c.next && OkCall(call, |vars|)
    requires Comes(p, c, vars, s0, n0, v) && Holds(p, PlainRow(call, |vars|), v)
    ensures Comes(p, d, more, s0, n0, v)
  {
    hide Indexed, Ordered, Meets, Hinted, IsPrime, Eval, Extends;
    var s: Assignment :| Meets(p, c, s) && SameBelow(s0, s, n0) && CongBelow(p, Seen(vars, s), v, |vars|);
    var t := s;
    if call.Times? {
      NoDivisionRuns(p, c, d, s);
      Extensible(p, c, d, s);
      t :| Meets(p, d, t) && SameBelow(s, t, c.next);
      assert CongBelow(p, Seen(vars, t), v, |vars|);
      SameProductValue(p, call, |vars|, Seen(more, t), v);
    } else {
      PlainRowCong(p, call, |vars|, Seen(vars, s), v);
      assert AddsAt(p, c, d, s, Holds(p, PlainRow(call, |vars|), Seen(vars, s)));
      SameGens(p, c, d, s);
    }
    assert CongBelow(p, Seen(more, t), v, |more|);
  }

  lemma SameProductValue(p: Prime, call: Call, n: nat, v: Assignment, w: Assignment)
    requires call.Times? && OkCall(call, n) && CongBelow(p, v, w, n)
    requires Holds(p, PlainRow(call, n), v) && Holds(p, PlainRow(call, n), w)
    ensures Cong(p, v(n), w(n))
  {
    hide Eval, IsPrime;
    CongEval(p, call.l, n, v, w);
    CongEval(p, call.r, n, v, w);
    CongMul(p, Eval(call.l, v), Eval(call.l, w), Eval(call.r, v), Eval(call.r, w));
  }

  /** Emit a sequence of calls on the variables `inputs`: the builder stays equivalent to a plain one. */
  method EmitAll(b: Builder, calls: seq<Call>, inputs: seq<nat>) returns (vars: seq<nat>)
    requires b.Valid() && AllBelow(inputs, b.next) && OkCalls(calls, |inputs|)
    modifies b
    ensures b.Valid() && |vars| == Values(calls, |inputs|) && AllBelow(vars, b.next)
    ensures Equivalent(b.p, old(b.Snap()), b.Snap(), inputs, vars, calls)
  {
    hide Ordered, Indexed, OkCaches, Meets, Hinted, IsPrime, Eval, Value, Pow2, Cong, Extends, Holds, Adds;
    ghost var c0 := b.Snap();
    vars := inputs;
    EquivalentStart(b.p, c0, inputs);
    for i := 0 to |calls|
      invariant b.Valid() && b.next >= c0.next && |vars| == Values(calls[..i], |inputs|) && AllBelow(vars, b.next)
      invariant Equivalent(b.p, c0, b.Snap(), inputs, vars, calls[..i])
    {
      ghost var (c, was) := (b.Snap(), vars);
      assert calls[..i + 1] == calls[..i] + [calls[i]];
      OkPrefix(calls, |inputs|, i);
      vars := Emit(b, calls[i], vars);
      EquivalentStep(b.p, c0, c, b.Snap(), inputs, was, vars, calls[..i], calls[i]);
    }
    assert calls[..|calls|] == calls;
  }

  lemma OkPrefix(calls: seq<Call>, n: nat, i: nat)
    requires OkCalls(calls, n) && i < |calls|
    ensures OkCalls(calls[..i], n) && OkCall(calls[i], Values(calls[..i], n))
  {
    forall j | 0 <= j < i
      ensures OkCall(calls[..i][j], Values(calls[..i][..j], n))
    {
      assert calls[..i][..j] == calls[..j];
    }
  }

  lemma EquivalentStart(p: Prime, c0: Circuit, inputs: seq<nat>)
    requires Indexed(c0)
    ensures Equivalent(p, c0, c0, inputs, inputs, [])
  {
    hide Meets, Indexed;
    forall s: Assignment, v: Assignment | Meets(p, c0, s) && CongBelow(p, Seen(inputs, s), v, |inputs|)
      ensures Comes(p, c0, inputs, s, c0.next, v)
    {
      assert SameBelow(s, s, c0.next);
    }
  }

  lemma EquivalentStep(p: Prime, c0: Circuit, c: Circuit, d: Circuit, inputs: seq<nat>, vars: seq<nat>, more: seq<nat>,
                       calls: seq<Call>, call: Call)
    requires Indexed(c0) && Shaped(c) && Shaped(d) && Extends(c, d) && c0.next <= c.next && AllBelow(vars, c.next)
    requires OkCalls(calls, |inputs|) && |vars| == Values(calls, |inputs|) && OkCall(call, |vars|)
    requires Equivalent(p, c0, c, inputs, vars, calls) && Adds(p, c, d, call, vars, more)
    ensures Equivalent(p, c0, d, inputs, more, calls + [call]) && |more| == Values(calls + [call], |inputs|)
  {
    hide Ordered, Indexed, Meets, Hinted, IsPrime, Eval, Extends, Holds, Comes, PlainMeets;
    var n := |inputs|;
    assert |more| == if call.Times? then |vars| + 1 else |vars|;
    forall s: Assignment | Meets(p, d, s)
      ensures Meets(p, c0, s) && PlainMeets(p, calls + [call], n, Seen(more, s))
    {
      Forwards(p, c, d, n, vars, more, calls, call, s);
    }
    forall s: Assignment, v: Assignment |
      Meets(p, c0, s) && CongBelow(p, Seen(inputs, s), v, n) && PlainMeets(p, calls + [call], n, v)
      ensures Comes(p, d, more, s, c0.next, v)
    {
      PlainSnoc(p, calls, call, n, v);
      Backwards(p, c, d, c0.next, vars, more, call, s, v);
    }
    PlainSnoc(p, calls, call, n, v => 0);
  }
}
