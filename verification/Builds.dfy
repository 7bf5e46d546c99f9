/** A whole build: a sequence of product and equality calls, then the finish. The rows written out have exactly the
    solutions of a plain builder, which gives each product and each equality a row of its own. */
module Builds {
  import opened Words
  import opened Fields
  import opened Linear
  import opened Circuits
  import opened Solving
  import opened Builder
  import opened Finishing
  import opened Calls

  /** Restoring a dropped product gives it the value it has anyway. */
  lemma RestoredCong(p: Prime, c: Circuit, s: Assignment)
    requires Indexed(c) && Meets(p, c, s)
    ensures forall v: nat :: Cong(p, Restored(c, s)(v), s(v))
    ensures Meets(p, c, Restored(c, s))
  {
    hide Eval, Referenced, IsPrime;
    var t := Restored(c, s);
    forall i | 0 <= i < |c.rows|
      ensures Holds(p, c.rows[i], t)
    {
      RestoredEval(c, s, i);
      assert Holds(p, c.rows[i], s);
    }
    forall v: nat
      ensures Cong(p, t(v), s(v))
    {
      if Dropped(c, v) {
        assert MergedHolds(p, c, v, s);
      }
    }
    forall v | v in c.merged
      ensures MergedHolds(p, c, v, t)
    {
      assert MergedHolds(p, c, v, s);
      RestoredEval(c, s, c.merged[v].1);
    }
  }

  /** The values `v` come from an assignment that satisfies the finished rows and starts like `s0`. */
  ghost predicate ComesFinished(p: Prime, c: Circuit, rows: seq<Row>, vars: seq<nat>, s0: Assignment, n0: nat,
                                v: Assignment)
    requires Indexed(c)
  {
    exists s: Assignment ::
      AllHold(p, rows, s) && SameBelow(s0, s, n0) && CongBelow(p, Seen(vars, Restored(c, s)), v, |vars|)
  }

  /**
   * The finished rows, and the plain builder: every assignment that satisfies the finished rows gives a plain
   * solution, once dropped products have their values; and every plain solution comes from one.
   */
  ghost predicate FinishedEquivalent(p: Prime, c0: Circuit, c: Circuit, rows: seq<Row>, inputs: seq<nat>,
                                     vars: seq<nat>, calls: seq<Call>)
    requires Indexed(c0) && Indexed(c)
  {
    && (forall s: Assignment :: AllHold(p, rows, s) ==>
          Meets(p, c0, Restored(c, s)) && PlainMeets(p, calls, |inputs|, Seen(vars, Restored(c, s))))
    && (forall s: Assignment, v: Assignment ::
          Meets(p, c0, s) && CongBelow(p, Seen(inputs, s), v, |inputs|) && PlainMeets(p, calls, |inputs|, v)
          ==> ComesFinished(p, c, rows, vars, s, c0.next, v))
  }

  lemma FinishKeeps(p: Prime, c0: Circuit, c: Circuit, inputs: seq<nat>, vars: seq<nat>, calls: seq<Call>)
    requires Indexed(c0) && Indexed(c) && Equivalent(p, c0, c, inputs, vars, calls)
    ensures FinishedEquivalent(p, c0, c, c.rows + Revived(c, c.next), inputs, vars, calls)
  {
    hide Indexed, Meets, PlainMeets, AllHold, IsPrime, Revived, Restored;
    var rows := c.rows + Revived(c, c.next);
    forall s: Assignment | AllHold(p, rows, s)
      ensures Meets(p, c0, Restored(c, s)) && PlainMeets(p, calls, |inputs|, Seen(vars, Restored(c, s)))
    {
      RevivalIsExact(p, c, s);
    }
    forall s: Assignment, v: Assignment |
      Meets(p, c0, s) && CongBelow(p, Seen(inputs, s), v, |inputs|) && PlainMeets(p, calls, |inputs|, v)
      ensures ComesFinished(p, c, rows, vars, s, c0.next, v)
    {
      assert Comes(p, c, vars, s, c0.next, v);
      ComesThrough(p, c, vars, s, c0.next, v);
    }
  }

  lemma ComesThrough(p: Prime, c: Circuit, vars: seq<nat>, s0: Assignment, n0: nat, v: Assignment)
    requires Indexed(c) && Comes(p, c, vars, s0, n0, v)
    ensures ComesFinished(p, c, c.rows + Revived(c, c.next), vars, s0, n0, v)
  {
    hide Indexed, Meets, AllHold, IsPrime, Revived, Restored;
    var s: Assignment :| Meets(p, c, s) && SameBelow(s0, s, n0) && CongBelow(p, Seen(vars, s), v, |vars|);
    RestoredCong(p, c, s);
    RevivalIsExact(p, c, s);
    forall i: nat | i < |vars|
      ensures Cong(p, Seen(vars, Restored(c, s))(i), v(i))
    {
      assert Cong(p, Seen(vars, s)(i), v(i)) && Cong(p, Restored(c, s)(vars[i]), s(vars[i]));
    }
    assert CongBelow(p, Seen(vars, Restored(c, s)), v, |vars|);
  }

  /** Emit the calls and finish. */
  method Build(b: Builder, calls: seq<Call>, inputs: seq<nat>)
    returns (vars: seq<nat>, rows: seq<Row>, gens: seq<Option<Gen>>)
    requires b.Valid() && AllBelow(inputs, b.next) && OkCalls(calls, |inputs|)
    modifies b
    ensures b.Valid() && |vars| == Values(calls, |inputs|)
    ensures FinishedEquivalent(b.p, old(b.Snap()), b.Snap(), rows, inputs, vars, calls)
    ensures |gens| == |b.gens| && forall i :: 0 <= i < |gens| ==> gens[i] == FinishedHint(b.Snap(), i)
  {
    hide Ordered, Indexed, OkCaches, Meets, Equivalent, FinishedEquivalent;
    ghost var c0 := b.Snap();
    vars := EmitAll(b, calls, inputs);
    rows, gens := Finish(b);
    FinishKeeps(b.p, c0, b.Snap(), inputs, vars, calls);
  }
}
