/** The end of a build: merged products still referenced get their row back, the others are dropped. */
module Finishing {
  import opened Words
  import opened Fields
  import opened Linear
  import opened Circuits
  import opened Builder

  predicate RowMentions(row: Row, v: nat) {
    Mentions(row.a, v) || Mentions(row.b, v) || Mentions(row.c, v)
  }

  ghost predicate Referenced(rows: seq<Row>, v: nat) {
    exists i :: 0 <= i < |rows| && RowMentions(rows[i], v)
  }

  /** The row of merged product `v`. */
  function RevivedRow(c: Circuit, v: nat): Row
    requires v in c.merged && c.merged[v].1 < |c.rows|
  {
    var row := c.rows[c.merged[v].1];
    Row(row.a, row.b, Var(v))
  }

  /** The rows revived among products `..n`. */
  ghost function Revived(c: Circuit, n: nat): seq<Row>
    requires Indexed(c)
  {
    if n == 0 then []
    else Revived(c, n - 1) + if n - 1 in c.merged && Referenced(c.rows, n - 1) then [RevivedRow(c, n - 1)] else []
  }

  ghost predicate AllHold(p: Prime, rows: seq<Row>, s: Assignment) {
    forall i :: 0 <= i < |rows| ==> Holds(p, rows[i], s)
  }

  /** `v` is a product that was merged and that no row uses: its variable is gone. */
  ghost predicate Dropped(c: Circuit, v: nat) {
    v in c.merged && !Referenced(c.rows, v)
  }

  /** `s`, with every dropped product given its value. */
  ghost function Restored(c: Circuit, s: Assignment): Assignment
    requires Indexed(c)
  {
    (v: nat) => if Dropped(c, v) then ProductOf(c, v, s) else s(v)
  }

  ghost function ProductOf(c: Circuit, v: nat, s: Assignment): int
    requires Indexed(c) && v in c.merged
  {
    var row := c.rows[c.merged[v].1];
    Eval(row.a, s) * Eval(row.b, s)
  }

  lemma RestoredEval(c: Circuit, s: Assignment, i: nat)
    requires Indexed(c) && i < |c.rows|
    ensures var (row, t) := (c.rows[i], Restored(c, s));
      Eval(row.a, t) == Eval(row.a, s) && Eval(row.b, t) == Eval(row.b, s) && Eval(row.c, t) == Eval(row.c, s)
  {
    var (row, t) := (c.rows[i], Restored(c, s));
    forall v | RowMentions(row, v)
      ensures t(v) == s(v)
    {
      assert Referenced(c.rows, v);
    }
    EvalAgrees(row.a, t, s);
    EvalAgrees(row.b, t, s);
    EvalAgrees(row.c, t, s);
  }

  /** The products below `n` that some row references hold. */
  ghost predicate NeededHold(p: Prime, c: Circuit, n: nat, s: Assignment)
    requires Indexed(c)
  {
    forall v: nat :: v < n && v in c.merged && Referenced(c.rows, v) ==> MergedHolds(p, c, v, s)
  }

  lemma NeededStep(p: Prime, c: Circuit, v: nat, s: Assignment)
    requires Indexed(c)
    ensures NeededHold(p, c, v + 1, s)
       <==> NeededHold(p, c, v, s) && (v in c.merged && Referenced(c.rows, v) ==> MergedHolds(p, c, v, s))
  {
    hide Referenced, MergedHolds;
  }

  lemma OneRow(p: Prime, c: Circuit, v: nat, s: Assignment)
    requires Indexed(c) && v in c.merged
    ensures AllHold(p, [RevivedRow(c, v)], s) <==> MergedHolds(p, c, v, s)
  {
    var row := RevivedRow(c, v);
    assert AllHold(p, [row], s) <==> Holds(p, [row][0], s);
  }

  lemma {:induction false} RevivedHold(p: Prime, c: Circuit, n: nat, s: Assignment)
    requires Indexed(c)
    ensures AllHold(p, Revived(c, n), s) <==> NeededHold(p, c, n, s)
  {
    hide Referenced, NeededHold, AllHold, MergedHolds;
    if n == 0 {
      NothingNeeded(p, c, s);
    } else {
      var v := n - 1;
      RevivedHold(p, c, v, s);
      NeededStep(p, c, v, s);
      if v in c.merged && Referenced(c.rows, v) {
        AllHoldConcat(p, Revived(c, v), [RevivedRow(c, v)], s);
        OneRow(p, c, v, s);
      } else {
        assert Revived(c, n) == Revived(c, v);
      }
    }
  }

  lemma NothingNeeded(p: Prime, c: Circuit, s: Assignment)
    requires Indexed(c)
    ensures AllHold(p, Revived(c, 0), s) && NeededHold(p, c, 0, s)
  {
  }

  /** One pass of revival is exact: the finished rows hold of an assignment exactly when all rows and all
      merged products do, once the dropped products have their values. */
  lemma RevivalIsExact(p: Prime, c: Circuit, s: Assignment)
    requires Indexed(c)
    ensures AllHold(p, c.rows + Revived(c, c.next), s) <==> Meets(p, c, Restored(c, s))
  {
    hide Eval, RowMentions, Revived;
    var (t, more) := (Restored(c, s), Revived(c, c.next));
    AllHoldConcat(p, c.rows, more, s);
    RevivedHold(p, c, c.next, s);
    forall i | 0 <= i < |c.rows|
      ensures Holds(p, c.rows[i], s) <==> Holds(p, c.rows[i], t)
    {
      RestoredEval(c, s, i);
    }
    forall v | v in c.merged
      ensures MergedHolds(p, c, v, t) <==> Dropped(c, v) || MergedHolds(p, c, v, s)
    {
      RestoredEval(c, s, c.merged[v].1);
    }
  }

  lemma AllHoldConcat(p: Prime, x: seq<Row>, y: seq<Row>, s: Assignment)
    ensures AllHold(p, x + y, s) <==> AllHold(p, x, s) && AllHold(p, y, s)
  {
    if AllHold(p, x + y, s) {
      forall i | 0 <= i < |x|
        ensures Holds(p, x[i], s)
      {
        assert (x + y)[i] == x[i];
      }
      forall i | 0 <= i < |y|
        ensures Holds(p, y[i], s)
      {
        assert (x + y)[|x| + i] == y[i];
      }
    }
  }

  /** Every variable some row uses. */
  method ReferencedVars(rows: seq<Row>) returns (vars: set<nat>)
    ensures forall v: nat :: v in vars <==> Referenced(rows, v)
  {
    vars := {};
    for i := 0 to |rows|
      invariant forall v: nat :: v in vars <==> exists j :: 0 <= j < i && RowMentions(rows[j], v)
    {
      var row := rows[i];
      VarsMentioned(row.a);
      VarsMentioned(row.b);
      VarsMentioned(row.c);
      var more := VarsOf(row.a) + VarsOf(row.b) + VarsOf(row.c);
      assert forall v: nat :: v in more <==> RowMentions(row, v);
      ghost var was := vars;
      vars := vars + more;
      forall v: nat
        ensures v in vars <==> exists j :: 0 <= j < i + 1 && RowMentions(rows[j], v)
      {
        if v in more {
          assert RowMentions(rows[i], v);
        } else if v in was {
          var j :| 0 <= j < i && RowMentions(rows[j], v);
        }
      }
    }
  }

  function VarsOf(x: Lc): set<nat> {
    set t | t in x.terms :: t.v
  }

  lemma VarsMentioned(x: Lc)
    ensures forall v: nat :: v in VarsOf(x) <==> Mentions(x, v)
  {
    forall v: nat
      ensures v in VarsOf(x) <==> Mentions(x, v)
    {
      if v in VarsOf(x) {
        var t :| t in x.terms && t.v == v;
        var i :| 0 <= i < |x.terms| && x.terms[i] == t;
      }
    }
  }

  /** The finished hint of slot `i`: a dropped product's slot stays empty. */
  ghost function FinishedHint(c: Circuit, i: nat): Option<Gen>
    requires Indexed(c) && i < |c.gens|
  {
    if c.gens[i] == None && Dropped(c, c.deferred[i].1) then None else Some(HintAt(c, i))
  }

  /** The hints once the products below `v` are revived. */
  ghost predicate HintsAt(c: Circuit, gens: seq<Option<Gen>>, v: nat)
    requires Indexed(c)
  {
    |gens| == |c.gens| && forall i :: 0 <= i < |gens| ==> gens[i] == HintSoFar(c, i, v)
  }

  ghost function HintSoFar(c: Circuit, i: nat, v: nat): Option<Gen>
    requires Indexed(c) && i < |c.gens|
  {
    if c.gens[i] == None && c.deferred[i].1 in c.merged && (c.deferred[i].1 >= v || !Referenced(c.rows,
      c.deferred[i].1))
    then None else Some(HintAt(c, i))
  }

  /** A variable is the product of one slot only. */
  lemma OneSlot(c: Circuit, i: nat, j: nat)
    requires Shaped(c) && i < |c.gens| && j < |c.gens| && c.gens[i] == None && c.gens[j] == None
    requires c.deferred[i].1 == c.deferred[j].1
    ensures i == j
  {
    var (g, h) := (HintAt(c, i), HintAt(c, j));
    assert LastOut(g) == g.out == h.out == LastOut(h);
  }

  /** Reviving product `v` fills its slot. */
  lemma RevivedHint(c: Circuit, gens: seq<Option<Gen>>, v: nat)
    requires Shaped(c) && HintsAt(c, gens, v)
    ensures v in c.merged && Referenced(c.rows, v) ==>
              var (slot, row) := c.merged[v];
              slot < |gens| && HintsAt(c, gens[slot := Some(Product(v, c.rows[row].a, c.rows[row].b))], v + 1)
    ensures !(v in c.merged && Referenced(c.rows, v)) ==> HintsAt(c, gens, v + 1)
  {
    hide Referenced;
    if v in c.merged {
      assert Owns(c, v, c.merged[v].0, c.merged[v].1);
      forall i | 0 <= i < |c.gens| && c.gens[i] == None && c.deferred[i].1 == v
        ensures i == c.merged[v].0
      {
        assert Owns(c, v, c.merged[v].0, c.merged[v].1);
        OneSlot(c, i, c.merged[v].0);
      }
    }
  }

  /** Fill the product hints, and revive the merged products that some row references. */
  method Finish(b: Builder) returns (rows: seq<Row>, gens: seq<Option<Gen>>)
    requires b.Valid()
    ensures rows == b.Snap().rows + Revived(b.Snap(), b.next)
    ensures |gens| == |b.gens| && forall i :: 0 <= i < |gens| ==> gens[i] == FinishedHint(b.Snap(), i)
  {
    hide Referenced, Ordered, OkCaches, Pow2, IsPrime, Indexed;
    ghost var c := b.Snap();
    gens := FillProducts(b);
    var vars := ReferencedVars(b.rows);
    rows := b.rows;
    var v := 0;
    assert rows + Revived(c, 0) == rows;
    while v < b.next
      invariant 0 <= v <= b.next && rows == c.rows + Revived(c, v) && HintsAt(c, gens, v)
    {
      RevivedHint(c, gens, v);
      if v in b.merged && v in vars {
        MergedRow(c, v);
        var (slot, row) := b.merged[v];
        rows := rows + [Row(b.rows[row].a, b.rows[row].b, Var(v))];
        gens := gens[slot := Some(Product(v, b.rows[row].a, b.rows[row].b))];
      }
      v := v + 1;
    }
    AllRevived(c, gens);
  }

  lemma MergedRow(c: Circuit, v: nat)
    requires Indexed(c) && v in c.merged
    ensures c.merged[v].1 < |c.rows|
  {
  }

  lemma AllRevived(c: Circuit, gens: seq<Option<Gen>>)
    requires Indexed(c) && HintsAt(c, gens, c.next)
    ensures |gens| == |c.gens| && forall i :: 0 <= i < |gens| ==> gens[i] == FinishedHint(c, i)
  {
  }

  /** Fill in the hint of every product that was not merged. */
  method FillProducts(b: Builder) returns (gens: seq<Option<Gen>>)
    requires b.Valid()
    ensures HintsAt(b.Snap(), gens, 0)
  {
    gens := b.gens;
    for i := 0 to |gens|
      invariant |gens| == |b.gens|
      invariant forall j :: i <= j < |gens| ==> gens[j] == b.gens[j]
      invariant forall j :: 0 <= j < i ==> gens[j] == HintSoFar(b.Snap(), j, 0)
    {
      if gens[i] == None {
        var (row, out) := b.deferred[i];
        if out !in b.merged {
          gens := gens[i := Some(Product(out, b.rows[row].a, b.rows[row].b))];
        }
      }
    }
  }
}
