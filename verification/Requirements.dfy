/** The rows for a symbolic run's requirements, each in the arms of its guards; and the circuit of a symbol table with
    its requirements. */
module Requirements {
  import opened Words
  import opened Fields
  import opened Linear
  import opened Circuits
  import opened Solving
  import opened Nums
  import opened NumDivision
  import opened Integers
  import opened Symbols
  import opened Wires
  import S = SymValues
  import L = Lowering

  /** The requirement and its guards are of `{0,1}` wires. */
  predicate OkReqBits(syms: seq<S.Sym>, req: L.Req) {
    && req.v.b == 0 && S.IsCond(syms, req.v.s)
    && forall i :: 0 <= i < |req.guards| ==> S.IsCond(syms, req.guards[i].cond)
  }

  predicate DividesUnder(syms: seq<S.Sym>, i: nat, req: L.Req) {
    DivisionAt(syms, i) && syms[i].def.b == req.v && syms[i].def.guards == req.guards
  }

  /** The requirement that a divisor is not 0, which the division's own rows make. */
  predicate IsDivisorReq(syms: seq<S.Sym>, req: L.Req) {
    req.nonzero && exists i :: 1 <= i < |syms| && DividesUnder(syms, i, req)
  }

  predicate ReqLowers(syms: seq<S.Sym>, req: L.Req) {
    OkReqBits(syms, req) || IsDivisorReq(syms, req)
  }

  /** The requirements that need rows. */
  function Conditions(syms: seq<S.Sym>, reqs: seq<L.Req>): seq<L.Req> {
    if reqs == [] then []
    else if OkReqBits(syms, reqs[0]) then [reqs[0]] + Conditions(syms, reqs[1..])
    else Conditions(syms, reqs[1..])
  }

  lemma {:induction false} ConditionsOk(syms: seq<S.Sym>, reqs: seq<L.Req>)
    ensures forall i :: 0 <= i < |Conditions(syms, reqs)| ==> OkReqBits(syms, Conditions(syms, reqs)[i])
  {
    if reqs != [] {
      ConditionsOk(syms, reqs[1..]);
    }
  }

  /** Where no division is by zero, the conditions are all that is required. */
  lemma {:induction false} ConditionsSuffice(syms: seq<S.Sym>, reqs: seq<L.Req>, inp: S.Inputs)
    requires NeverByZero(syms, |syms|, inp) && forall i :: 0 <= i < |reqs| ==> ReqLowers(syms, reqs[i])
    ensures L.AllBind(Conditions(syms, reqs), 0, S.Valuation(syms, inp)) <==> L.AllBind(reqs, 0, S.Valuation(syms, inp))
  {
    hide S.Valuation;
    var vals := S.Valuation(syms, inp);
    if reqs != [] {
      var (first, rest) := (reqs[0], Conditions(syms, reqs[1..]));
      ConditionsSuffice(syms, reqs[1..], inp);
      AllBindCons(first, reqs[1..], vals);
      AllBindCons(first, rest, vals);
      assert reqs == [first] + reqs[1..];
      if !OkReqBits(syms, first) {
        assert IsDivisorReq(syms, first);
        var i :| 1 <= i < |syms| && DividesUnder(syms, i, first);
        assert DivisorOk(syms, i, inp);
        assert L.Binds(first, vals);
      }
    }
  }

  lemma AllBindCons(req: L.Req, reqs: seq<L.Req>, vals: seq<nat>)
    ensures L.AllBind([req] + reqs, 0, vals) <==> L.Binds(req, vals) && L.AllBind(reqs, 0, vals)
  {
    hide L.Binds;
    var all := [req] + reqs;
    assert all[0] == req && forall i :: 0 <= i < |reqs| ==> all[i + 1] == reqs[i];
    if L.AllBind(all, 0, vals) {
      forall i | 0 <= i < |reqs|
        ensures L.Binds(reqs[i], vals)
      {
        assert L.Binds(all[i + 1], vals);
      }
    }
  }

  /** The requirement, of the nums. */
  ghost predicate ReqHolds(p: Prime, nums: seq<Num>, req: L.Req, s: Assignment) {
    LitsTaken(p, nums, req.guards, s) ==> req.v.s < |nums| && (NumVal(p, nums[req.v.s], s) != 0) == req.nonzero
  }

  ghost predicate BitsFit(p: Prime, c: Circuit, syms: seq<S.Sym>, nums: seq<Num>)
    requires Indexed(c)
  {
    |nums| == |syms| && forall i: nat :: S.IsCond(syms, i) ==> OkNum(p, c, nums[i], 1)
  }

  lemma BitsLits(p: Prime, c: Circuit, syms: seq<S.Sym>, nums: seq<Num>, req: L.Req)
    requires Indexed(c) && BitsFit(p, c, syms, nums) && OkReqBits(syms, req)
    ensures LitsFit(p, c, nums, req.guards) && req.v.s < |nums| && OkNum(p, c, nums[req.v.s], 1)
  {
    hide Indexed, OkNum;
  }

  /** Solutions that agree on the nums' variables agree on the requirement. */
  lemma SameReq(p: Prime, c: Circuit, syms: seq<S.Sym>, nums: seq<Num>, req: L.Req, s: Assignment, t: Assignment)
    requires Indexed(c) && BitsFit(p, c, syms, nums) && OkReqBits(syms, req) && SameBelow(s, t, c.next)
    ensures ReqHolds(p, nums, req, s) <==> ReqHolds(p, nums, req, t)
  {
    hide Indexed, OkNum, NumVal;
    forall i: nat | S.IsCond(syms, i)
      ensures NumVal(p, nums[i], s) == NumVal(p, nums[i], t)
    {
      SameNum(p, c, nums[i], 1, s, t);
    }
  }

  /** Require one condition, in the arms of its guards. */
  method LowerReq(ints: Integers, syms: seq<S.Sym>, nums: seq<Num>, req: L.Req)
    requires ints.Valid() && ints.arms == [] && BitsFit(ints.b.p, ints.b.Snap(), syms, nums) && OkReqBits(syms, req)
    modifies ints, ints.b
    ensures ints.Valid() && ints.arms == [] && ints.b.next >= old(ints.b.next)
      && Extends(old(ints.b.Snap()), ints.b.Snap())
    ensures forall s: Assignment ::
      AddsAt(ints.b.p, old(ints.b.Snap()), ints.b.Snap(), s, Meets(ints.b.p, old(ints.b.Snap()), s) ==>
          ReqHolds(ints.b.p, nums, req, s))
    ensures forall s: Assignment :: Meets(ints.b.p, old(ints.b.Snap()), s) && ReqHolds(ints.b.p, nums, req, s) ==>
      Completes(ints.b.p, old(ints.b.Snap()), ints.b.Snap(), s)
  {
    hide Ordered, Indexed, OkCaches, Meets, Hinted, IsPrime, Eval, Value, Extends, Pow2, OkNum, NumVal, BitsFit,
      ReqHolds, AllTaken, LitsFit, ArmsOf, EqualWhere, Completes;
    ghost var (p, c) := (ints.b.p, ints.b.Snap());
    BitsLits(p, c, syms, nums, req);
    OpenArms(ints, nums, req.guards);
    ghost var arms := ints.arms;
    CondBelow(p, c, syms, nums, req.v.s);
    var bit := if req.nonzero then 1 else 0;
    ints.RequireGated(LcOf(nums[req.v.s]), Const(bit));
    ghost var d := ints.b.Snap();
    forall s: Assignment
      ensures AddsAt(p, c, d, s, Meets(p, c, s) ==> ReqHolds(p, nums, req, s))
      ensures Meets(p, c, s) && ReqHolds(p, nums, req, s) ==> Completes(p, c, d, s)
    {
      GatedReq(p, c, syms, nums, req, arms, bit, s);
      AddsWhere(p, c, d, s, EqualWhere(p, arms, LcOf(nums[req.v.s]), Const(bit), s),
                Meets(p, c, s) ==> ReqHolds(p, nums, req, s));
    }
    CloseArms(ints);
  }

  /** Conditions that agree on the solutions add the same. */
  lemma AddsWhere(p: Prime, c: Circuit, d: Circuit, s: Assignment, k1: bool, k2: bool)
    requires Indexed(c) && Indexed(d) && AddsAt(p, c, d, s, k1) && (Meets(p, c, s) ==> (k1 <==> k2))
    ensures AddsAt(p, c, d, s, k2)
  {
    hide Meets, Hinted, Indexed;
  }

  lemma CondBelow(p: Prime, c: Circuit, syms: seq<S.Sym>, nums: seq<Num>, i: nat)
    requires p > Pow2(253) && Indexed(c) && BitsFit(p, c, syms, nums) && S.IsCond(syms, i)
    ensures i < |nums| && Below(LcOf(nums[i]), c.next) && IsBit(p, c, LcOf(nums[i])) && Below(Const(0), c.next)
      && Below(Const(1), c.next)
    ensures forall s: Assignment :: NumVal(p, nums[i], s) == Value(p, LcOf(nums[i]), s)
  {
    hide Meets, Value, OkNum, NumVal;
    OneBit(p, c, nums[i]);
  }

  lemma GatedReq(p: Prime, c: Circuit, syms: seq<S.Sym>, nums: seq<Num>, req: L.Req, arms: seq<Arm>, bit: nat,
                 s: Assignment)
    requires p > Pow2(253) && Indexed(c) && BitsFit(p, c, syms, nums) && OkReqBits(syms, req)
    requires ArmsOf(nums, req.guards, arms) && bit == if req.nonzero then 1 else 0
    ensures req.v.s < |nums|
    ensures Meets(p, c, s) ==>
      (EqualWhere(p, arms, LcOf(nums[req.v.s]), Const(bit), s) <==> ReqHolds(p, nums, req, s))
  {
    hide Indexed, Meets, Value, NumVal, BitsFit, LitsFit, ArmsOf, AllTaken, LitsTaken;
    CondBelow(p, c, syms, nums, req.v.s);
    if Meets(p, c, s) {
      assert Value(p, LcOf(nums[req.v.s]), s) <= 1;
      BitConsts(p, s);
      BitsLits(p, c, syms, nums, req);
      ArmsTaken(p, c, nums, req.guards, arms, s);
    }
  }

  lemma BitConsts(p: Prime, s: Assignment)
    ensures Value(p, Const(0), s) == 0 && Value(p, Const(1), s) == 1
  {
    hide IsPrime;
  }

  ghost predicate ReqsHold(p: Prime, nums: seq<Num>, reqs: seq<L.Req>, s: Assignment) {
    forall i :: 0 <= i < |reqs| ==> ReqHolds(p, nums, reqs[i], s)
  }

  lemma BitsStay(p: Prime, c: Circuit, d: Circuit, syms: seq<S.Sym>, nums: seq<Num>)
    requires Indexed(c) && Indexed(d) && c.next <= d.next && BitsFit(p, c, syms, nums)
    requires forall s: Assignment :: Meets(p, d, s) ==> Meets(p, c, s)
    ensures BitsFit(p, d, syms, nums)
  {
    hide Meets, Indexed;
  }

  /** Rows that leave exactly the solutions on which the requirements hold, each in one way. */
  ghost predicate Requires(p: Prime, c: Circuit, d: Circuit, nums: seq<Num>, reqs: seq<L.Req>)
    requires Indexed(c) && Indexed(d)
  {
    && c.next <= d.next && Extends(c, d)
    && forall s: Assignment ::
         && AddsAt(p, c, d, s, Meets(p, c, s) ==> ReqsHold(p, nums, reqs, s))
         && (Meets(p, c, s) && ReqsHold(p, nums, reqs, s) ==> Completes(p, c, d, s))
  }

  /** Require all conditions, in order. */
  method LowerReqs(ints: Integers, syms: seq<S.Sym>, nums: seq<Num>, reqs: seq<L.Req>)
    requires ints.Valid() && ints.arms == [] && BitsFit(ints.b.p, ints.b.Snap(), syms, nums)
    requires forall i :: 0 <= i < |reqs| ==> OkReqBits(syms, reqs[i])
    modifies ints, ints.b
    ensures ints.Valid() && ints.arms == [] && Requires(ints.b.p, old(ints.b.Snap()), ints.b.Snap(), nums, reqs)
  {
    hide Ordered, Indexed, OkCaches, Meets, Hinted, IsPrime, Eval, Value, Extends, Pow2, OkNum, NumVal, BitsFit,
      ReqHolds, AllTaken, OkReqBits, Completes, Requires;
    ghost var (p, c) := (ints.b.p, ints.b.Snap());
    RequiresNothing(p, c, nums, reqs);
    for i := 0 to |reqs|
      invariant ints.Valid() && ints.arms == [] && BitsFit(p, ints.b.Snap(), syms, nums)
      invariant Requires(p, c, ints.b.Snap(), nums, reqs[..i])
    {
      ghost var d := ints.b.Snap();
      LowerReq(ints, syms, nums, reqs[i]);
      ghost var e := ints.b.Snap();
      OneMoreReq(p, c, d, e, syms, nums, reqs, i);
      BitsStay(p, d, e, syms, nums);
    }
    assert reqs[..|reqs|] == reqs;
  }

  lemma RequiresNothing(p: Prime, c: Circuit, nums: seq<Num>, reqs: seq<L.Req>)
    requires Indexed(c)
    ensures Requires(p, c, c, nums, reqs[..0])
  {
    PinnedSelf(p, c);
  }

  lemma OneMoreReq(p: Prime, c: Circuit, d: Circuit, e: Circuit, syms: seq<S.Sym>, nums: seq<Num>, reqs: seq<L.Req>,
                   i: nat)
    requires Indexed(c) && Indexed(d) && Indexed(e) && Extends(d, e) && d.next <= e.next && i < |reqs|
    requires BitsFit(p, c, syms, nums) && OkReqBits(syms, reqs[i])
    requires Requires(p, c, d, nums, reqs[..i])
    requires forall s: Assignment :: AddsAt(p, d, e, s, Meets(p, d, s) ==> ReqHolds(p, nums, reqs[i], s))
    requires forall s: Assignment :: Meets(p, d, s) && ReqHolds(p, nums, reqs[i], s) ==> Completes(p, d, e, s)
    ensures Requires(p, c, e, nums, reqs[..i + 1])
    ensures forall s: Assignment :: Meets(p, e, s) ==> Meets(p, d, s)
  {
    hide Indexed, Meets, Hinted, Extends, ReqHolds, BitsFit, OkReqBits;
    ExtendsTrans(c, d, e);
    forall s: Assignment
      ensures AddsAt(p, c, e, s, Meets(p, c, s) ==> ReqsHold(p, nums, reqs[..i + 1], s))
      ensures Meets(p, c, s) && ReqsHold(p, nums, reqs[..i + 1], s) ==> Completes(p, c, e, s)
      ensures Meets(p, e, s) ==> Meets(p, d, s)
    {
      MoreReqs(p, nums, reqs, i, s);
      assert AddsAt(p, d, e, s, Meets(p, d, s) ==> ReqHolds(p, nums, reqs[i], s));
      AddsThen(p, c, d, e, s, Meets(p, c, s) ==> ReqsHold(p, nums, reqs[..i], s), Meets(p, d, s) ==>
        ReqHolds(p, nums, reqs[i], s),
               Meets(p, c, s) ==> ReqsHold(p, nums, reqs[..i + 1], s));
      if Meets(p, c, s) && ReqsHold(p, nums, reqs[..i + 1], s) {
        assert Completes(p, c, d, s);
        var t: Assignment :| Meets(p, d, t) && SameBelow(s, t, c.next);
        SameReq(p, c, syms, nums, reqs[i], s, t);
        CompletesTrans(p, c, d, e, s, t);
      }
    }
  }

  lemma MoreReqs(p: Prime, nums: seq<Num>, reqs: seq<L.Req>, i: nat, s: Assignment)
    requires i < |reqs|
    ensures ReqsHold(p, nums, reqs[..i + 1], s) <==> ReqsHold(p, nums, reqs[..i], s) && ReqHolds(p, nums, reqs[i], s)
  {
    hide ReqHolds;
    assert reqs[..i + 1] == reqs[..i] + [reqs[i]];
  }

  // ----- table and requirements -----

  /** What a circuit for the table and its requirements is, at `s` with the inputs `inp`: the new rows hold exactly at
      the hinted values where the requirements accept the inputs; each symbol then has its worth; and where they do,
      and no division is by zero, there are such values. */
  ghost predicate Lowers(p: Prime, c: Circuit, d: Circuit, syms: seq<S.Sym>, nums: seq<Num>, reqs: seq<L.Req>,
                         s: Assignment, inp: S.Inputs)
    requires Indexed(c) && Indexed(d) && |nums| <= |syms|
  {
    var accepted := L.AllBind(reqs, 0, S.Valuation(syms, inp));
    && AddsAt(p, c, d, s, accepted)
    && (Meets(p, d, s) ==> Worths(p, syms, nums, s, inp))
    && (Meets(p, c, s) && accepted && NeverByZero(syms, |syms|, inp) ==> Completes(p, c, d, s))
  }

  /**
   * Lower a table and its requirements. `None` only where every solution's inputs make some division one by zero.
   */
  method LowerCircuit(ints: Integers, syms: seq<S.Sym>, inputs: map<nat, Num>, reqs: seq<L.Req>)
    returns (r: Option<seq<Num>>)
    requires ints.Valid() && ints.arms == [] && Table(syms) && OkInputs(ints.b.p, ints.b.Snap(), syms, inputs)
    requires forall i :: 0 <= i < |reqs| ==> ReqLowers(syms, reqs[i])
    modifies ints, ints.b
    ensures ints.Valid() && Extends(old(ints.b.Snap()), ints.b.Snap())
    ensures r.Some? ==> |r.value| == |syms| && forall s: Assignment, inp: S.Inputs ::
      InputsAgree(ints.b.p, syms, inputs, s, inp) ==>
        Lowers(ints.b.p, old(ints.b.Snap()), ints.b.Snap(), syms, r.value, reqs, s, inp)
    ensures r.None? ==> Hopeless(ints.b.p, old(ints.b.Snap()), syms, inputs)
  {
    hide Ordered, Indexed, OkCaches, Meets, Hinted, IsPrime, Eval, Value, Extends, Pow2, OkNum, NumVal, BitsFit,
      ReqsHold, AllTaken, OkReqBits, ReqLowers, InputsAgree, S.Valuation, L.AllBind, Forced, OkInputs, Table, Worths,
      Requires, Hopeless, Lowers, PinnedTable;
    ghost var (p, c) := (ints.b.p, ints.b.Snap());
    r := LowerTable(ints, syms, inputs);
    ghost var d := ints.b.Snap();
    TableExtends(p, c, d, syms, inputs);
    if r.None? {
      return;
    }
    AllBitsFit(p, d, syms, inputs, r.value);
    ConditionsOk(syms, reqs);
    LowerReqs(ints, syms, r.value, Conditions(syms, reqs));
    RequiresExtends(p, c, d, ints.b.Snap(), r.value, Conditions(syms, reqs));
    forall s: Assignment, inp: S.Inputs | InputsAgree(p, syms, inputs, s, inp)
      ensures Lowers(p, c, ints.b.Snap(), syms, r.value, reqs, s, inp)
    {
      CircuitLowers(p, c, d, ints.b.Snap(), syms, inputs, r.value, reqs, s, inp);
    }
  }

  lemma TableExtends(p: Prime, c: Circuit, d: Circuit, syms: seq<S.Sym>, inputs: map<nat, Num>)
    requires Indexed(c) && Indexed(d) && PinnedTable(p, c, d, syms, inputs, |syms|)
    ensures Extends(c, d)
  {
    hide Indexed, Meets, Hinted, InputsAgree, NeverByZero, Completes;
  }

  lemma RequiresExtends(p: Prime, c: Circuit, d: Circuit, e: Circuit, nums: seq<Num>, reqs: seq<L.Req>)
    requires Indexed(c) && Indexed(d) && Indexed(e) && Extends(c, d) && Requires(p, d, e, nums, reqs)
    ensures Extends(c, e)
  {
    hide Indexed, Meets, Hinted, ReqsHold, Completes;
    ExtendsTrans(c, d, e);
  }

  lemma AllBitsFit(p: Prime, c: Circuit, syms: seq<S.Sym>, inputs: map<nat, Num>, nums: seq<Num>)
    requires Indexed(c) && |nums| == |syms| && Forced(p, c, syms, inputs, nums)
    ensures BitsFit(p, c, syms, nums)
  {
    hide Indexed, OkNum, Meets, InputsAgree, Worths, NeverByZero;
    forall i: nat | S.IsCond(syms, i)
      ensures OkNum(p, c, nums[i], 1)
    {
      assert SymWidth(syms, i) == 1;
    }
  }

  lemma CircuitLowers(p: Prime, c: Circuit, d: Circuit, e: Circuit, syms: seq<S.Sym>, inputs: map<nat, Num>,
                      nums: seq<Num>, reqs: seq<L.Req>, s: Assignment, inp: S.Inputs)
    requires Indexed(c) && Indexed(d) && Indexed(e) && |nums| == |syms| && OkInputs(p, c, syms, inputs)
    requires PinnedTable(p, c, d, syms, inputs, |syms|) && Requires(p, d, e, nums, Conditions(syms, reqs))
    requires Forced(p, d, syms, inputs, nums) && InputsAgree(p, syms, inputs, s, inp)
    requires forall i :: 0 <= i < |reqs| ==> ReqLowers(syms, reqs[i])
    ensures Lowers(p, c, e, syms, nums, reqs, s, inp)
  {
    hide Indexed, Meets, Hinted, Extends, ReqsHold, OkReqBits, ReqLowers, InputsAgree, S.Valuation, L.AllBind, Fitting,
      NeverByZero, Worths, OkInputs;
    var all := L.AllBind(reqs, 0, S.Valuation(syms, inp));
    ConditionsAt(p, d, syms, inputs, nums, reqs, s, inp);
    assert AddsAt(p, c, d, s, true);
    assert AddsAt(p, d, e, s, Meets(p, d, s) ==> ReqsHold(p, nums, Conditions(syms, reqs), s));
    AddsWhere(p, d, e, s, Meets(p, d, s) ==> ReqsHold(p, nums, Conditions(syms, reqs), s), all);
    AddsThen(p, c, d, e, s, true, all, all);
    if Meets(p, c, s) && all && NeverByZero(syms, |syms|, inp) {
      assert Completes(p, c, d, s);
      var t: Assignment :| Meets(p, d, t) && SameBelow(s, t, c.next);
      SameInputs(p, c, syms, inputs, s, t, inp);
      ConditionsAt(p, d, syms, inputs, nums, reqs, t, inp);
      assert Completes(p, d, e, t);
      CompletesTrans(p, c, d, e, s, t);
    }
  }

  /** At a solution, the conditions' rows hold exactly where the requirements accept the inputs. */
  lemma ConditionsAt(p: Prime, d: Circuit, syms: seq<S.Sym>, inputs: map<nat, Num>, nums: seq<Num>, reqs: seq<L.Req>,
                     s: Assignment, inp: S.Inputs)
    requires Indexed(d) && |nums| == |syms| && Forced(p, d, syms, inputs, nums)
    requires InputsAgree(p, syms, inputs, s, inp) && forall i :: 0 <= i < |reqs| ==> ReqLowers(syms, reqs[i])
    ensures Meets(p, d, s) ==> Worths(p, syms, nums, s, inp)
    ensures Meets(p, d, s) ==>
      (ReqsHold(p, nums, Conditions(syms, reqs), s) <==> L.AllBind(reqs, 0, S.Valuation(syms, inp)))
  {
    hide Indexed, Meets, ReqsHold, OkReqBits, ReqLowers, InputsAgree, S.Valuation, L.AllBind, Fitting, NeverByZero,
      Worths;
    if Meets(p, d, s) {
      ConditionsOk(syms, reqs);
      ConditionsSuffice(syms, reqs, inp);
      ReqsAre(p, syms, nums, Conditions(syms, reqs), s, inp);
    }
  }

  /** Where every num has its worth, the requirements are what the machine means by them. */
  lemma ReqsAre(p: Prime, syms: seq<S.Sym>, nums: seq<Num>, reqs: seq<L.Req>, s: Assignment, inp: S.Inputs)
    requires |nums| == |syms| && Worths(p, syms, nums, s, inp) && forall i :: 0 <= i < |reqs| ==>
      OkReqBits(syms, reqs[i])
    ensures ReqsHold(p, nums, reqs, s) <==> L.AllBind(reqs, 0, S.Valuation(syms, inp))
  {
    hide NumVal, S.Valuation;
    var vals := S.Valuation(syms, inp);
    forall i | 0 <= i < |reqs|
      ensures ReqHolds(p, nums, reqs[i], s) <==> L.Binds(reqs[i], vals)
    {
      ReqIs(p, syms, nums, reqs[i], s, inp);
    }
  }

  lemma ReqIs(p: Prime, syms: seq<S.Sym>, nums: seq<Num>, req: L.Req, s: Assignment, inp: S.Inputs)
    requires |nums| == |syms| && Worths(p, syms, nums, s, inp) && OkReqBits(syms, req)
    ensures ReqHolds(p, nums, req, s) <==> L.Binds(req, S.Valuation(syms, inp))
  {
    hide NumVal, S.Valuation;
    var vals := S.Valuation(syms, inp);
    GuardsTaken(p, syms, nums, req.guards, s, inp);
    assert NumVal(p, nums[req.v.s], s) == S.Val(vals, req.v);
  }
}
