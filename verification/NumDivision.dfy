/** Division, and the guards of the arms it is under. */
module NumDivision {
  import opened Words
  import opened Fields
  import opened Linear
  import opened Circuits
  import opened Solving
  import opened Builder
  import opened Nums

  // ----- division -----

  /** What the checks of a division say of `s`. */
  ghost predicate DivOk(p: Prime, q: nat, r: nat, num: Lc, den: Lc, wq: nat, wr: nat, g: Option<Lc>, s: Assignment) {
    && s(q) % p < Pow2(wq) && s(r) % p < Pow2(wr)
    && ((g.Some? ==> Value(p, g.value, s) != 0) ==>
          s(r) % p < Value(p, den, s) && Cong(p, s(q) * Eval(den, s) + s(r), Eval(num, s)))
  }

  lemma ScaledProduct(p: Prime, q: nat, k: nat, s: Assignment)
    ensures Cong(p, Eval(Scale(Var(q), k), s), s(q) * Eval(Const(k), s))
  {
    assert k * s(q) == s(q) * k;
  }

  lemma RangedTightens(p: Prime, c: Circuit, c1: Circuit, c2: Circuit, x: Lc, m: nat, y: Lc, n: nat)
    requires Indexed(c) && Indexed(c1) && Indexed(c2) && Ranged(p, c, c1, x, m) && Ranged(p, c1, c2, y, n)
    ensures Tightens(p, c, c2) && c.next <= c2.next && InRange(p, c2, y, n)
  {
    hide Indexed, Meets, Hinted, Extends, Value, Pow2;
    forall s: Assignment | Meets(p, c2, s)
      ensures Meets(p, c, s) && Value(p, y, s) < Pow2(n)
    {
      assert AddsAt(p, c1, c2, s, Value(p, y, s) < Pow2(n));
      assert AddsAt(p, c, c1, s, Value(p, x, s) < Pow2(m));
    }
  }

  /** A comparison of operands in range adds nothing but its own variables. */
  lemma ComparedPinned(p: Prime, c: Circuit, c2: Circuit, c3: Circuit, x: Lc, y: Lc, m: nat, n: nat)
    requires Indexed(c) && Indexed(c2) && Indexed(c3) && Tightens(p, c, c2) && Tightens(p, c2, c3) && c2.next <= c3.next
      && Extends(c2, c3)
    requires InRange(p, c2, x, m) && InRange(p, c, y, n) && m <= n
    requires forall s: Assignment :: Comparable(p, None, n, x, y, s) ==> AddsAt(p, c2, c3, s, true)
    requires forall s: Assignment :: Meets(p, c2, s) && Comparable(p, None, n, x, y, s) ==> Completes(p, c2, c3, s)
    ensures Pinned(p, c2, c3)
  {
    hide Indexed, Meets, Hinted, Extends, Value, Pow2, Completes;
    Pow2Mono(m, n);
    forall s: Assignment | Meets(p, c2, s)
      ensures AddsAt(p, c2, c3, s, true) && Completes(p, c2, c3, s)
    {
      assert Meets(p, c, s);
      assert Comparable(p, None, n, x, y, s);
    }
    PinnedFrom(p, c2, c3);
  }

  lemma ComparedValue(p: Prime, c: Circuit, c2: Circuit, c3: Circuit, x: Lc, y: Lc, m: nat, n: nat, lt: Lc,
                      s: Assignment)
    requires Indexed(c) && Indexed(c2) && Indexed(c3) && Tightens(p, c, c2) && Tightens(p, c2, c3)
    requires InRange(p, c2, x, m) && InRange(p, c, y, n) && m <= n
    requires forall t: Assignment :: Comparable(p, None, n, x, y, t) && Meets(p, c3, t) ==>
               Value(p, lt, t) == if Live(p, None, t) && Value(p, x, t) >= Value(p, y, t) then 0 else 1
    ensures Meets(p, c3, s) ==> (Value(p, lt, s) == 1 <==> Value(p, x, s) < Value(p, y, s))
  {
    hide Indexed, Meets, Hinted, Extends, Value, Pow2;
    Pow2Mono(m, n);
    if Meets(p, c3, s) {
      assert Meets(p, c2, s) && Meets(p, c, s);
      assert Comparable(p, None, n, x, y, s);
      assert Live(p, None, s);
    }
  }

  /** Where every literal of `arms` is 1, the divisor is not 0. */
  ghost predicate Divisible(p: Prime, arms: seq<Arm>, y: Num, s: Assignment) {
    AllTaken(p, arms, s) ==> NumVal(p, y, s) != 0
  }

  /** What a division does: new variables, each with one value in every earlier solution whose divisor allows it. */
  ghost predicate PinnedDiv(p: Prime, c: Circuit, d: Circuit, arms: seq<Arm>, y: Num)
    requires Indexed(c) && Indexed(d)
  {
    Forces(p, c, d) && forall s: Assignment :: Meets(p, c, s) && Divisible(p, arms, y, s) ==> Completes(p, c, d, s)
  }

  lemma SameDivisible(p: Prime, c: Circuit, arms: seq<Arm>, more: seq<Arm>, y: Num, reg: nat, s: Assignment,
                      t: Assignment)
    requires Indexed(c) && OkArms(p, c, arms) && OkNum(p, c, y, reg) && SameLits(arms, more) && SameBelow(s, t, c.next)
    ensures Divisible(p, arms, y, s) <==> Divisible(p, more, y, t)
  {
    hide Meets, Value;
    if y.Wire? {
      SameValue(p, y.lc, c.next, s, t);
    }
    SameArms(p, c, arms, s, t);
    SameTaken(p, arms, more, t);
  }

  /** `lhs` and `rhs` are equal where every literal of `arms` is 1. */
  ghost predicate EqualWhere(p: Prime, arms: seq<Arm>, lhs: Lc, rhs: Lc, s: Assignment) {
    AllTaken(p, arms, s) ==> Value(p, lhs, s) == Value(p, rhs, s)
  }

  /** A solution that meets the requirement of an arm extends to one after it. */
  lemma RequireCompletes(p: Prime, c: Circuit, d: Circuit, e: Circuit, arms: seq<Arm>, lhs: Lc, rhs: Lc)
    requires Indexed(c) && Indexed(d) && Indexed(e) && Pinned(p, c, d) && Extends(d, e) && |e.gens| == |d.gens|
    requires OkArms(p, c, arms) && Below(lhs, c.next) && Below(rhs, c.next)
    requires forall s: Assignment :: AddsAt(p, c, e, s, EqualWhere(p, arms, lhs, rhs, s))
    ensures forall s: Assignment :: Meets(p, c, s) && EqualWhere(p, arms, lhs, rhs, s) ==> Completes(p, c, e, s)
  {
    hide Indexed, Meets, Hinted, Value, OkArms, Extends, AllTaken;
    forall s: Assignment | Meets(p, c, s) && EqualWhere(p, arms, lhs, rhs, s)
      ensures Completes(p, c, e, s)
    {
      assert Completes(p, c, d, s);
      var t: Assignment :| Meets(p, d, t) && SameBelow(s, t, c.next);
      SameValue(p, lhs, c.next, s, t);
      SameValue(p, rhs, c.next, s, t);
      SameArms(p, c, arms, s, t);
      assert AddsAt(p, c, d, t, true);
      HintedSplit(p, c, d, e, t);
      NothingHinted(p, d, e, t);
      assert AddsAt(p, c, e, t, EqualWhere(p, arms, lhs, rhs, t));
      CompletesBy(p, c, e, s, t);
    }
  }

  lemma NothingHinted(p: Prime, c: Circuit, d: Circuit, s: Assignment)
    requires Indexed(c) && Indexed(d) && |d.gens| == |c.gens|
    ensures Hinted(p, d, |c.gens|, s)
  {
  }

  lemma SameArms(p: Prime, c: Circuit, arms: seq<Arm>, s: Assignment, t: Assignment)
    requires Indexed(c) && OkArms(p, c, arms) && SameBelow(s, t, c.next)
    ensures AllTaken(p, arms, s) <==> AllTaken(p, arms, t)
  {
    hide Meets, Value;
    forall i | 0 <= i < |arms|
      ensures Value(p, arms[i].lit, s) == Value(p, arms[i].lit, t)
    {
      assert Below(arms[i].lit, c.next);
      SameValue(p, arms[i].lit, c.next, s, t);
    }
  }

  /** A division, between steps without requirements. */
  lemma PinnedDivTrans(p: Prime, c: Circuit, d: Circuit, e: Circuit, f: Circuit, arms: seq<Arm>, more: seq<Arm>, y: Num,
                       reg: nat)
    requires Indexed(c) && Indexed(d) && Indexed(e) && Indexed(f)
    requires Pinned(p, c, d) && PinnedDiv(p, d, e, more, y) && Pinned(p, e, f)
    requires OkArms(p, c, arms) && OkNum(p, c, y, reg) && SameLits(arms, more)
    ensures PinnedDiv(p, c, f, arms, y)
  {
    hide Indexed, Meets, OkArms, OkNum, Divisible, SameLits;
    ForcesTrans(p, c, d, e);
    ForcesTrans(p, c, e, f);
    assert c.next <= d.next && d.next <= e.next;
    hide Forces;
    forall s: Assignment | Meets(p, c, s) && Divisible(p, arms, y, s)
      ensures Completes(p, c, f, s)
    {
      assert Completes(p, c, d, s);
      var t: Assignment :| Meets(p, d, t) && SameBelow(s, t, c.next);
      SameDivisible(p, c, arms, more, y, reg, s, t);
      assert Completes(p, d, e, t);
      var u: Assignment :| Meets(p, e, u) && SameBelow(t, u, d.next);
      CompletesTrans(p, d, e, f, t, u);
      CompletesTrans(p, c, d, f, s, t);
    }
  }

  lemma DivExtends(c: Circuit, c1: Circuit, c2: Circuit, c3: Circuit, c4: Circuit, c5: Circuit, c6: Circuit)
    requires Extends(c, c1) && Extends(c1, c2) && Extends(c2, c3) && Extends(c3, c4) && Extends(c4, c5)
      && Extends(c5, c6)
    ensures Extends(c, c2) && Extends(c, c3) && Extends(c, c4) && Extends(c, c5) && Extends(c, c6)
  {
    hide Extends;
    ExtendsTrans(c, c1, c2);
    ExtendsTrans(c, c2, c3);
    ExtendsTrans(c, c3, c4);
    ExtendsTrans(c, c4, c5);
    ExtendsTrans(c, c5, c6);
  }

  lemma DivUndivided(c: Circuit, c1: Circuit, c2: Circuit, c3: Circuit, c4: Circuit, c5: Circuit, c6: Circuit)
    requires Extends(c, c1) && Extends(c1, c2) && Extends(c2, c3) && Extends(c3, c4) && Extends(c4, c5)
      && Extends(c5, c6)
    requires NoDivision(c, c1) && NoDivision(c1, c2) && NoDivision(c2, c3) && NoDivision(c3, c4) && NoDivision(c4, c5)
      && NoDivision(c5, c6)
    ensures NoDivision(c, c6)
  {
    hide Extends, NoDivision;
    NoDivisionTrans(c, c1, c2);
    NoDivisionTrans(c, c2, c3);
    NoDivisionTrans(c, c3, c4);
    NoDivisionTrans(c, c4, c5);
    NoDivisionTrans(c, c5, c6);
  }

  lemma DivChecksAdd(p: Prime, c: Circuit, c1: Circuit, c2: Circuit, c3: Circuit, c4: Circuit, c5: Circuit, c6: Circuit,
                     q: nat, r: nat, num: Lc, den: Lc, lt: Lc, prod: Lc, wq: nat, wr: nat, g: Option<Lc>, s: Assignment)
    requires Indexed(c) && Indexed(c1) && Indexed(c2) && Indexed(c3) && Indexed(c4) && Indexed(c5) && Indexed(c6)
    requires Ranged(p, c, c1, Var(q), wq) && Ranged(p, c1, c2, Var(r), wr) && Pinned(p, c2, c3)
    requires Extends(c3, c4) && Pinned(p, c4, c5) && Extends(c5, c6)
    requires Meets(p, c3, s) ==> (Value(p, lt, s) == 1 <==> Value(p, Var(r), s) < Value(p, den, s))
    requires AddsAt(p, c3, c4, s, (g.Some? ==> Value(p, g.value, s) != 0) ==> Value(p, lt, s) == Value(p, Const(1), s))
    requires Meets(p, c5, s) ==> Cong(p, Eval(prod, s), s(q) * Eval(den, s))
    requires AddsAt(p, c5, c6, s, (g.Some? ==> Value(p, g.value, s) != 0) ==>
      Value(p, Add(prod, Var(r)), s) == Value(p, num, s))
    ensures AddsAt(p, c, c6, s, DivOk(p, q, r, num, den, wq, wr, g, s))
  {
    hide Indexed, Meets, Hinted, Extends, Value, Pow2, IsPrime, Eval, Cong;
    var on := g.Some? ==> Value(p, g.value, s) != 0;
    var (rq, rr) := (Value(p, Var(q), s) < Pow2(wq), Value(p, Var(r), s) < Pow2(wr));
    var (less, eq) := (Value(p, Var(r), s) < Value(p, den, s), Cong(p, s(q) * Eval(den, s) + s(r), Eval(num, s)));
    DivExtends(c, c1, c2, c3, c4, c5, c6);
    DivForms(p, q, r, num, den, prod, s);
    assert AddsAt(p, c, c1, s, rq) && AddsAt(p, c1, c2, s, rr) && AddsAt(p, c2, c3, s, true)
      && AddsAt(p, c4, c5, s, true);
    AddsTrans(p, c, c1, c2, s, rq, rr);
    AddsTrans(p, c, c2, c3, s, rq && rr, true);
    AddsThen(p, c, c3, c4, s, rq && rr, on ==> Value(p, lt, s) == Value(p, Const(1), s), on ==> less);
    AddsTrans(p, c, c4, c5, s, rq && rr && (on ==> less), true);
    AddsThen(p, c, c5, c6, s, rq && rr && (on ==> less), on ==>
      Value(p, Add(prod, Var(r)), s) == Value(p, num, s), on ==> eq);
  }

  lemma DivForms(p: Prime, q: nat, r: nat, num: Lc, den: Lc, prod: Lc, s: Assignment)
    ensures Value(p, Var(q), s) == s(q) % p && Value(p, Var(r), s) == s(r) % p && Value(p, Const(1), s) == 1
    ensures Cong(p, Eval(prod, s), s(q) * Eval(den, s)) ==>
              (Value(p, Add(prod, Var(r)), s) == Value(p, num, s) <==>
                Cong(p, s(q) * Eval(den, s) + s(r), Eval(num, s)))
  {
    hide Eval;
    ModSmall(1, p);
    if Cong(p, Eval(prod, s), s(q) * Eval(den, s)) {
      CongAdd(p, Eval(prod, s), s(q) * Eval(den, s), s(r), s(r));
    }
  }

  // ----- guards -----

  /** The same literals; guards may have been made. */
  ghost predicate SameLits(a: seq<Arm>, b: seq<Arm>) {
    |a| == |b| && forall i :: 0 <= i < |a| ==> a[i].lit == b[i].lit
  }

  lemma SameTaken(p: Prime, a: seq<Arm>, b: seq<Arm>, s: Assignment)
    requires SameLits(a, b)
    ensures AllTaken(p, a, s) <==> AllTaken(p, b, s)
  {
    if AllTaken(p, a, s) {
      forall i | 0 <= i < |b|
        ensures Value(p, b[i].lit, s) == 1
      {
        assert Value(p, a[i].lit, s) == 1;
      }
    }
    if AllTaken(p, b, s) {
      forall i | 0 <= i < |a|
        ensures Value(p, a[i].lit, s) == 1
      {
        assert Value(p, b[i].lit, s) == 1;
      }
    }
  }

  lemma ArmsPushed(p: Prime, c: Circuit, arms: seq<Arm>, lit: Lc)
    requires Indexed(c) && OkArms(p, c, arms) && Below(lit, c.next) && IsBit(p, c, lit)
    ensures OkArms(p, c, arms + [Arm(lit, None)])
  {
    hide Meets, IsBit;
    var more := arms + [Arm(lit, None)];
    forall i | 0 <= i < |arms|
      ensures Outer(more, i) == Outer(arms, i)
    {
    }
  }

  lemma ArmsPopped(p: Prime, c: Circuit, arms: seq<Arm>)
    requires Indexed(c) && OkArms(p, c, arms) && arms != []
    ensures OkArms(p, c, arms[..|arms| - 1])
  {
    hide Meets, IsBit;
    var less := arms[..|arms| - 1];
    forall i | 0 <= i < |less|
      ensures Outer(less, i) == Outer(arms, i)
    {
    }
  }

  lemma LastGuard(p: Prime, c: Circuit, arms: seq<Arm>)
    requires Indexed(c) && OkArms(p, c, arms) && arms != [] && arms[|arms| - 1].made.Some?
    ensures IsGuard(p, c, arms, arms[|arms| - 1].made.value)
  {
    hide Meets, IsBit;
    assert arms[..|arms| - 1 + 1] == arms;
  }

  lemma ParentBelow(p: Prime, c: Circuit, arms: seq<Arm>, j: nat)
    requires Indexed(c) && OkArms(p, c, arms) && 0 < j < |arms| && arms[j - 1].made.Some?
    ensures Below(arms[j - 1].made.value, c.next) && IsGuard(p, c, arms[..j], arms[j - 1].made.value)
  {
    hide Meets, IsBit;
    assert arms[..j - 1 + 1] == arms[..j];
  }

  lemma TakenSnoc(p: Prime, arms: seq<Arm>, j: nat, s: Assignment)
    requires j < |arms|
    ensures AllTaken(p, arms[..j + 1], s) <==> AllTaken(p, arms[..j], s) && Value(p, arms[j].lit, s) == 1
  {
    hide Value;
    var (less, more) := (arms[..j], arms[..j + 1]);
    if AllTaken(p, more, s) {
      assert more[j] == arms[j];
      forall i | 0 <= i < j
        ensures Value(p, less[i].lit, s) == 1
      {
        assert more[i] == less[i];
      }
    }
  }

  /** The product of a parent's guard and a literal guards the arm. */
  lemma GuardMade(p: Prime, c: Circuit, arms: seq<Arm>, j: nat, g: Lc)
    requires Indexed(c) && OkArms(p, c, arms) && j < |arms| && forall i :: 0 <= i < |arms| ==>
      (i < j <==> arms[i].made.Some?)
    requires Below(g, c.next)
    requires if j == 0 then g == arms[0].lit
             else forall s: Assignment :: Meets(p, c, s) ==>
               Cong(p, Eval(g, s), Eval(arms[j - 1].made.value, s) * Eval(arms[j].lit, s))
    ensures OkArms(p, c, arms[j := Arm(arms[j].lit, Some(g))])
  {
    hide Meets, Eval, IsPrime, AllTaken, Value;
    forall s: Assignment | Meets(p, c, s)
      ensures Value(p, g, s) == if AllTaken(p, arms[..j + 1], s) then 1 else 0
    {
      assert IsBit(p, c, arms[j].lit) && Value(p, arms[j].lit, s) <= 1;
      TakenSnoc(p, arms, j, s);
      if j == 0 {
        NoneTaken(p, arms[..0], s);
      } else {
        ParentBelow(p, c, arms, j);
        GuardProduct(p, g, arms[j - 1].made.value, arms[j].lit, s);
      }
    }
    var more := arms[j := Arm(arms[j].lit, Some(g))];
    forall i, s: Assignment | 0 <= i < |arms|
      ensures AllTaken(p, Outer(more, i), s) <==> AllTaken(p, Outer(arms, i), s)
    {
      SameTaken(p, Outer(more, i), Outer(arms, i), s);
    }
    GuardsKept(p, c, arms, more, j);
  }

  lemma GuardsKept(p: Prime, c: Circuit, arms: seq<Arm>, more: seq<Arm>, j: nat)
    requires Indexed(c) && OkArms(p, c, arms) && j < |arms| && forall i :: 0 <= i < |arms| ==>
      (i < j <==> arms[i].made.Some?)
    requires |more| == |arms| && more[j].lit == arms[j].lit && more[j].made.Some?
      && forall i :: 0 <= i < |arms| && i != j ==> more[i] == arms[i]
    requires IsGuard(p, c, Outer(arms, j), more[j].made.value)
    requires forall i, s: Assignment :: 0 <= i < |arms| ==>
      (AllTaken(p, Outer(more, i), s) <==> AllTaken(p, Outer(arms, i), s))
    ensures OkArms(p, c, more)
  {
    hide Meets, AllTaken, Value;
    forall i | 0 <= i < |more|
      ensures Below(more[i].lit, c.next) && IsBit(p, c, more[i].lit)
      ensures more[i].made.Some? ==> IsGuard(p, c, Outer(more, i), more[i].made.value)
    {
      assert Below(arms[i].lit, c.next) && IsBit(p, c, arms[i].lit);
      if i < j {
        assert IsGuard(p, c, Outer(arms, i), arms[i].made.value);
      }
    }
  }

  lemma NoneTaken(p: Prime, arms: seq<Arm>, s: Assignment)
    requires arms == []
    ensures AllTaken(p, arms, s)
  {
  }

  lemma GuardProduct(p: Prime, g: Lc, a: Lc, b: Lc, s: Assignment)
    requires Value(p, a, s) <= 1 && Value(p, b, s) <= 1 && Cong(p, Eval(g, s), Eval(a, s) * Eval(b, s))
    ensures Value(p, g, s) == if Value(p, a, s) == 1 && Value(p, b, s) == 1 then 1 else 0
  {
    hide Eval, IsPrime;
    var (x, y) := (Value(p, a, s), Value(p, b, s));
    CongMod(p, Eval(a, s));
    CongMod(p, Eval(b, s));
    CongMul(p, Eval(a, s), x, Eval(b, s), y);
    assert x * y == if x == 1 && y == 1 then 1 else 0;
    ModSmall(x * y, p);
  }

  /** The guard is nonzero exactly where every literal is 1. */
  lemma GuardCases(p: Prime, c: Circuit, arms: seq<Arm>, g: Option<Lc>, s: Assignment)
    requires Indexed(c) && (g.None? <==> arms == []) && (g.Some? ==> IsGuard(p, c, arms, g.value))
    ensures Meets(p, c, s) ==> (AllTaken(p, arms, s) <==> (g.Some? ==> Value(p, g.value, s) != 0))
    ensures Meets(p, c, s) && g.Some? ==> Value(p, g.value, s) <= 1
    ensures Meets(p, c, s) ==> (Live(p, g, s) <==> AllTaken(p, arms, s))
  {
    hide Meets, Value;
    if arms == [] {
      NoneTaken(p, arms, s);
    }
  }
}
