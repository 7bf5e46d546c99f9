/**
 * Which wires of a circuit are bits, and which gadget calls that makes safe: a fixpoint over the circuit's rows and
 * the recorded calls. A wire is called a bit only if every solution gives it 0 or 1.
 */
module Coverage {
  import opened Words
  import opened Fields
  import opened Linear
  import opened Reduction
  import opened Gadgets

  /** What is known of a gadget: `to_bits`, whether its outputs are bits, on any inputs or on bits, and how many of its
      first inputs it assumes to be bits. */
  datatype Kind = Kind(toBits: bool, producer: bool, free: bool, assumes: Option<nat>)

  /** A recorded call: covered by a proof, or one whose caller must see to the assumptions (`plugs`); `silent` when it
      emitted nothing. */
  datatype Call = Call(kind: Kind, inputs: seq<Form>, outputs: seq<Form>, silent: bool, covered: bool, plugs: bool)

  // ----- meaning -----

  ghost predicate IsBit(p: Prime, x: Form, s: Assignment) {
    Cong(p, Sum(x, s), 0) || Cong(p, Sum(x, s), 1)
  }

  ghost predicate AreBits(p: Prime, xs: seq<Form>, s: Assignment) {
    forall i :: 0 <= i < |xs| ==> IsBit(p, xs[i], s)
  }

  /** `Σ 2^i · xs[i]` */
  function Recomposed(xs: seq<Form>): Form {
    if xs == [] then Form(0, []) else Plus(Recomposed(xs[..|xs| - 1]), ScaleBy(xs[|xs| - 1], Pow2(|xs| - 1)))
  }

  /** `outs` are bits that spell `x`. */
  ghost predicate Spells(p: Prime, outs: seq<Form>, x: Form, s: Assignment) {
    AreBits(p, outs, s) && SameValue(p, Recomposed(outs), x, s)
  }

  predicate IsToBits(c: Call) {
    c.kind.toBits && |c.inputs| == 1
  }

  /** What a proof of the call's gadget gives. */
  ghost predicate Spec(p: Prime, c: Call, s: Assignment) {
    && (IsToBits(c) ==> Spells(p, c.outputs, c.inputs[0], s))
    && (c.kind.producer && (c.kind.free || AreBits(p, c.inputs, s)) ==> AreBits(p, c.outputs, s))
  }

  function Assumed(c: Call): seq<Form> {
    match c.kind.assumes
    case None => []
    case Some(n) => if n <= |c.inputs| then c.inputs[..n] else c.inputs
  }

  /** A solution of the circuit, in which every covered call meets its `Spec`, and so does one with plugs whose
      assumptions hold. */
  ghost predicate World(p: Prime, rows: seq<GadgetRow>, calls: seq<Call>, s: Assignment) {
    && RowsHold(p, rows, s)
    && forall i :: 0 <= i < |calls| ==>
         && (calls[i].covered ==> Spec(p, calls[i], s))
         && (calls[i].plugs && calls[i].kind.assumes.Some? && AreBits(p, Assumed(calls[i]), s) ==> Spec(p, calls[i], s))
  }

  // ----- wires -----

  /** A combination's identity modulo the prime. */
  function Wire(p: Prime, x: Form): Form {
    CanonicalLc(p, x)
  }

  function Wires(p: Prime, xs: seq<Form>): (r: seq<Form>)
    ensures |r| == |xs| && forall i :: 0 <= i < |xs| ==> r[i] == Wire(p, xs[i])
  {
    seq(|xs|, i requires 0 <= i < |xs| => Wire(p, xs[i]))
  }

  function OneMinus(x: Form): Form {
    Plus(Form(1, []), ScaleBy(x, -1))
  }

  function MinusOne(x: Form): Form {
    Plus(x, Form(-1, []))
  }

  /** The form is 0 or 1 as it stands, or it or its complement is a known bit. */
  predicate InSet(p: Prime, known: set<Form>, x: Form) {
    var l := Wire(p, x);
    (l.terms == [] && (l.constant == 0 || l.constant == 1)) || l in known || Wire(p, OneMinus(l)) in known
  }

  /** Every wire of `known` is a bit. */
  ghost predicate AllBits(p: Prime, known: set<Form>, s: Assignment) {
    forall x :: x in known ==> IsBit(p, x, s)
  }

  lemma SameBit(p: Prime, x: Form, y: Form, s: Assignment)
    requires Wire(p, x) == Wire(p, y)
    ensures IsBit(p, x, s) <==> IsBit(p, y, s)
    ensures SameValue(p, x, y, s)
  {
    hide CanonicalLc;
    CanonicalSum(p, x, s);
    CanonicalSum(p, y, s);
  }

  lemma WireBit(p: Prime, x: Form, s: Assignment)
    ensures IsBit(p, Wire(p, x), s) <==> IsBit(p, x, s)
  {
    hide CanonicalLc;
    CanonicalSum(p, x, s);
  }

  lemma OneMinusBit(p: Prime, x: Form, s: Assignment)
    ensures IsBit(p, OneMinus(x), s) <==> IsBit(p, x, s)
  {
    PlusScaled(Form(1, []), x, -1, s);
    var v := Sum(x, s);
    assert Sum(OneMinus(x), s) == 1 - v;
    CongIff(p, 1 - v, 0);
    CongIff(p, 1 - v, 1);
    CongIff(p, v, 0);
    CongIff(p, v, 1);
    NegDivides(p, v);
    NegDivides(p, v - 1);
    assert -(v - 1) == 1 - v && (1 - v) - 1 == -v;
  }

  /** What the check calls a bit is one. */
  lemma InSetIsBit(p: Prime, known: set<Form>, x: Form, s: Assignment)
    requires InSet(p, known, x) && AllBits(p, known, s)
    ensures IsBit(p, x, s)
  {
    hide CanonicalLc, OneMinus, IsBit;
    var l := Wire(p, x);
    WireBit(p, x, s);
    if l.terms == [] && (l.constant == 0 || l.constant == 1) {
      ConstantBit(p, l, s);
    } else if l !in known {
      WireBit(p, OneMinus(l), s);
      OneMinusBit(p, l, s);
    }
  }

  lemma ConstantBit(p: Prime, x: Form, s: Assignment)
    requires x.terms == [] && (x.constant == 0 || x.constant == 1)
    ensures IsBit(p, x, s)
  {
  }

  // ----- rows that pin a wire -----

  /** The wire a row pins to 0 or 1: `x · x = x`, `x · (x − 1) = 0`, or `a · b = v` of two bits. */
  function Pins(p: Prime, known: set<Form>, r: GadgetRow): Option<Form> {
    if r.a == r.b && r.a == r.c then Some(r.a)
    else if r.c.terms == [] && r.c.constant == 0 then
      if Wire(p, MinusOne(r.a)) == Wire(p, r.b) then Some(r.a)
      else if Wire(p, MinusOne(r.b)) == Wire(p, r.a) then Some(r.b)
      else None
    else if InSet(p, known, r.a) && InSet(p, known, r.b) then Some(r.c)
    else None
  }

  lemma BitProduct(p: Prime, x: int)
    requires Cong(p, x * (x - 1), 0)
    ensures Cong(p, x, 0) || Cong(p, x, 1)
  {
    CongIff(p, x * (x - 1), 0);
    ZeroProduct(p, x, x - 1);
    CongIff(p, x, 0);
    CongIff(p, x, 1);
  }

  lemma Squared(x: int)
    ensures x * x - x == x * (x - 1) == (x - 1) * x
  {
  }

  lemma MinusOneSum(x: Form, s: Assignment)
    ensures Sum(MinusOne(x), s) == Sum(x, s) - 1
  {
    SumAppend(x.terms, [], s);
  }

  /** A row pins a bit. */
  lemma PinsBit(p: Prime, known: set<Form>, r: GadgetRow, s: Assignment)
    requires Pins(p, known, r).Some? && RowHolds(p, r, s) && AllBits(p, known, s)
    ensures IsBit(p, Pins(p, known, r).value, s)
  {
    hide CanonicalLc, MinusOne, IsPrime, InSet, AllBits;
    var (a, b) := (Sum(r.a, s), Sum(r.b, s));
    if r.a == r.b && r.a == r.c {
      Squared(a);
      CongIff(p, a * a, a);
      CongIff(p, a * (a - 1), 0);
      BitProduct(p, a);
    } else if r.c.terms == [] && r.c.constant == 0 {
      if Wire(p, MinusOne(r.a)) == Wire(p, r.b) {
        SameBit(p, MinusOne(r.a), r.b, s);
        MinusOneSum(r.a, s);
        CongMul(p, a, a, a - 1, b);
        BitProduct(p, a);
      } else {
        SameBit(p, MinusOne(r.b), r.a, s);
        MinusOneSum(r.b, s);
        CongMul(p, b - 1, a, b, b);
        Squared(b);
        BitProduct(p, b);
      }
    } else {
      InSetIsBit(p, known, r.a, s);
      InSetIsBit(p, known, r.b, s);
      ProductBit(p, r, s);
    }
  }

  lemma ProductBit(p: Prime, r: GadgetRow, s: Assignment)
    requires RowHolds(p, r, s) && IsBit(p, r.a, s) && IsBit(p, r.b, s)
    ensures IsBit(p, r.c, s)
  {
    var (a, b) := (Sum(r.a, s), Sum(r.b, s));
    var (x, y) := (if Cong(p, a, 0) then 0 else 1, if Cong(p, b, 0) then 0 else 1);
    CongMul(p, a, x, b, y);
  }

  // ----- calls -----

  /** Whether a silent `to_bits` repeats a covered decomposition, or reads the bits of a sum of bits. */
  predicate Repeated(p: Prime, known: set<Form>, decomps: map<(Form, nat), seq<Form>>, c: Call)
    requires |c.inputs| == 1
  {
    var key := (Wire(p, c.inputs[0]), |c.outputs|);
    || (key in decomps && decomps[key] == Wires(p, c.outputs))
    || (|c.outputs| <= 253 && Wire(p, Recomposed(c.outputs)) == Wire(p, c.inputs[0])
        && forall i :: 0 <= i < |c.outputs| ==> InSet(p, known, c.outputs[i]))
  }

  /** A call not covered yet that the circuit around it covers. */
  predicate Discharged(p: Prime, known: set<Form>, decomps: map<(Form, nat), seq<Form>>, c: Call) {
    if IsToBits(c) && c.silent && c.outputs != [] then Repeated(p, known, decomps, c)
    else c.plugs && c.kind.assumes.Some? && forall i :: 0 <= i < |Assumed(c)| ==> InSet(p, known, Assumed(c)[i])
  }

  /** A covered call whose outputs are bits. */
  predicate Produces(p: Prime, known: set<Form>, c: Call) {
    c.kind.producer && (c.kind.free || forall i :: 0 <= i < |c.inputs| ==> InSet(p, known, c.inputs[i]))
  }

  /** Every decomposition remembered is one. */
  ghost predicate OkDecomps(p: Prime, decomps: map<(Form, nat), seq<Form>>, s: Assignment) {
    forall k :: k in decomps ==> Spells(p, decomps[k], k.0, s) && |decomps[k]| == k.1
  }

  lemma InSetAll(p: Prime, known: set<Form>, xs: seq<Form>, s: Assignment)
    requires AllBits(p, known, s) && forall i :: 0 <= i < |xs| ==> InSet(p, known, xs[i])
    ensures AreBits(p, xs, s)
  {
    hide InSet, IsBit;
    forall i | 0 <= i < |xs|
      ensures IsBit(p, xs[i], s)
    {
      InSetIsBit(p, known, xs[i], s);
    }
  }

  lemma {:induction false} RecomposedWires(p: Prime, xs: seq<Form>, s: Assignment)
    ensures SameValue(p, Recomposed(Wires(p, xs)), Recomposed(xs), s)
    decreases |xs|
  {
    hide CanonicalLc, Pow2, ScaleBy, Plus, Sum;
    if xs != [] {
      var (most, x, w) := (xs[..|xs| - 1], xs[|xs| - 1], Pow2(|xs| - 1));
      RecomposedWires(p, most, s);
      assert Wires(p, xs)[..|xs| - 1] == Wires(p, most);
      CanonicalSum(p, x, s);
      PlusScaled(Recomposed(Wires(p, most)), Wire(p, x), w, s);
      PlusScaled(Recomposed(most), x, w, s);
      CongMul(p, w, w, Sum(Wire(p, x), s), Sum(x, s));
      CongAdd(p, Sum(Recomposed(Wires(p, most)), s), Sum(Recomposed(most), s), w * Sum(Wire(p, x), s), w * Sum(x, s));
    }
  }

  /** Spelling is a matter of wires. */
  lemma SpellsWires(p: Prime, outs: seq<Form>, x: Form, s: Assignment)
    ensures Spells(p, Wires(p, outs), Wire(p, x), s) <==> Spells(p, outs, x, s)
  {
    hide CanonicalLc, Recomposed, Sum;
    RecomposedWires(p, outs, s);
    CanonicalSum(p, x, s);
    forall i | 0 <= i < |outs|
      ensures IsBit(p, Wires(p, outs)[i], s) <==> IsBit(p, outs[i], s)
    {
      CanonicalSum(p, outs[i], s);
    }
    if AreBits(p, Wires(p, outs), s) {
      forall i | 0 <= i < |outs|
        ensures IsBit(p, outs[i], s)
      {
        assert IsBit(p, Wires(p, outs)[i], s);
      }
    }
  }

  /** A kind is consistent: `to_bits` produces bits freely. */
  predicate OkKind(k: Kind) {
    k.toBits ==> k.producer && k.free
  }

  lemma RepeatedIsSpec(p: Prime, known: set<Form>, decomps: map<(Form, nat), seq<Form>>, c: Call, s: Assignment)
    requires IsToBits(c) && Repeated(p, known, decomps, c) && AllBits(p, known, s) && OkDecomps(p, decomps, s)
    ensures Spec(p, c, s)
  {
    hide CanonicalLc, Recomposed, InSet, IsBit;
    var key := (Wire(p, c.inputs[0]), |c.outputs|);
    if key in decomps && decomps[key] == Wires(p, c.outputs) {
      SpellsWires(p, c.outputs, c.inputs[0], s);
    } else {
      InSetAll(p, known, c.outputs, s);
      SameBit(p, Recomposed(c.outputs), c.inputs[0], s);
    }
  }

  lemma DischargedIsSpec(p: Prime, rows: seq<GadgetRow>, calls: seq<Call>, known: set<Form>,
                         decomps: map<(Form, nat), seq<Form>>, i: nat, s: Assignment)
    requires World(p, rows, calls, s) && i < |calls| && Discharged(p, known, decomps, calls[i])
    requires AllBits(p, known, s) && OkDecomps(p, decomps, s)
    ensures Spec(p, calls[i], s)
  {
    hide InSet, IsBit, Repeated, Spec;
    var c := calls[i];
    if IsToBits(c) && c.silent && c.outputs != [] {
      RepeatedIsSpec(p, known, decomps, c, s);
    } else {
      InSetAll(p, known, Assumed(c), s);
    }
  }

  // ----- the fixpoint -----

  /** What has been found so far: wires of producers and of rows, decompositions, calls, and which calls taught
      theirs. */
  datatype State = State(bits: set<Form>, pinned: set<Form>, decomps: map<(Form, nat), seq<Form>>, calls: seq<Call>,
    learned: seq<bool>) {
    function Known(): set<Form> { bits + pinned }
  }

  /** The wire a `to_bits` takes apart, and into how many bits. */
  function Key(p: Prime, c: Call): (Form, nat)
    requires IsToBits(c)
  {
    (Wire(p, c.inputs[0]), |c.outputs|)
  }

  /** A call that has taught is covered, its outputs are known, and a decomposition like it is remembered; every
      decomposition remembered is that of a covered call. */
  ghost predicate Taught(p: Prime, st: State) {
    && |st.learned| == |st.calls|
    && (forall i :: 0 <= i < |st.calls| && st.learned[i] ==> TaughtBy(p, st, st.calls[i]))
    && forall k :: k in st.decomps ==> exists i :: 0 <= i < |st.calls| && Taken(p, st, k, st.calls[i])
  }

  ghost predicate TaughtBy(p: Prime, st: State, c: Call) {
    && c.covered && (forall j :: 0 <= j < |c.outputs| ==> Wire(p, c.outputs[j]) in st.bits)
    && (IsToBits(c) ==> Key(p, c) in st.decomps)
  }

  ghost predicate Taken(p: Prime, st: State, k: (Form, nat), c: Call)
    requires k in st.decomps
  {
    c.covered && IsToBits(c) && k == Key(p, c) && st.decomps[k] == Wires(p, c.outputs)
  }

  /** `calls` is `calls0` with more calls covered. */
  ghost predicate MoreCovered(calls0: seq<Call>, calls: seq<Call>) {
    |calls| == |calls0| && forall i :: 0 <= i < |calls| ==>
      calls[i].(covered := calls0[i].covered) == calls0[i] && (calls0[i].covered ==> calls[i].covered)
  }

  /** In every world, what was found is right. */
  ghost predicate Right(p: Prime, rows: seq<GadgetRow>, calls0: seq<Call>, st: State) {
    && MoreCovered(calls0, st.calls) && |st.learned| == |st.calls|
    && forall s: Assignment :: World(p, rows, calls0, s) ==> RightAt(p, st, s)
  }

  ghost predicate RightAt(p: Prime, st: State, s: Assignment) {
    && AllBits(p, st.Known(), s) && OkDecomps(p, st.decomps, s)
    && forall i :: 0 <= i < |st.calls| && st.calls[i].covered ==> Spec(p, st.calls[i], s)
  }

  /** The wires rows can pin. */
  ghost function RowWires(p: Prime, rows: seq<GadgetRow>): set<Form> {
    set i, k | 0 <= i < |rows| && 0 <= k < 3 :: Wire(p, Sides(rows[i])[k])
  }

  function Sides(r: GadgetRow): (xs: seq<Form>)
    ensures |xs| == 3
  {
    [r.a, r.b, r.c]
  }

  ghost function Uncovered(calls: seq<Call>): nat {
    if calls == [] then 0 else Uncovered(calls[1..]) + if calls[0].covered then 0 else 1
  }

  ghost function Unlearned(learned: seq<bool>): nat {
    if learned == [] then 0 else Unlearned(learned[1..]) + if learned[0] then 0 else 1
  }

  lemma {:induction false} CoverOne(calls: seq<Call>, i: nat)
    requires i < |calls| && !calls[i].covered
    ensures Uncovered(calls[i := calls[i].(covered := true)]) == Uncovered(calls) - 1
  {
    var more := calls[i := calls[i].(covered := true)];
    if i == 0 {
      assert more[1..] == calls[1..];
    } else {
      assert more[1..] == calls[1..][i - 1 := calls[i].(covered := true)];
      CoverOne(calls[1..], i - 1);
    }
  }

  lemma {:induction false} LearnOne(learned: seq<bool>, i: nat)
    requires i < |learned| && !learned[i]
    ensures Unlearned(learned[i := true]) == Unlearned(learned) - 1
  {
    if i == 0 {
      assert learned[i := true][1..] == learned[1..];
    } else {
      assert learned[i := true][1..] == learned[1..][i - 1 := true];
      LearnOne(learned[1..], i - 1);
    }
  }

  /** How much is left to find. */
  ghost function Left(p: Prime, rows: seq<GadgetRow>, st: State): nat {
    |RowWires(p, rows) - st.pinned| + Uncovered(st.calls) + Unlearned(st.learned)
  }

  // ----- one row -----

  ghost predicate RowDone(p: Prime, st: State, r: GadgetRow) {
    Pins(p, st.Known(), r).Some? ==> Wire(p, Pins(p, st.Known(), r).value) in st.pinned
  }

  lemma PinStays(p: Prime, rows: seq<GadgetRow>, calls0: seq<Call>, st: State, i: nat)
    requires Right(p, rows, calls0, st) && i < |rows| && Pins(p, st.Known(), rows[i]).Some?
    ensures var w := Wire(p, Pins(p, st.Known(), rows[i]).value);
      && Right(p, rows, calls0, st.(pinned := st.pinned + {w}))
      && (w !in st.pinned ==> Left(p, rows, st.(pinned := st.pinned + {w})) < Left(p, rows, st))
  {
    hide CanonicalLc, Pins, Spec, OkDecomps, InSet, IsBit;
    var x := Pins(p, st.Known(), rows[i]).value;
    var next := st.(pinned := st.pinned + {Wire(p, x)});
    forall s: Assignment | World(p, rows, calls0, s)
      ensures RightAt(p, next, s)
    {
      assert RightAt(p, st, s) && RowHolds(p, rows[i], s);
      PinsBit(p, st.Known(), rows[i], s);
      WireBit(p, x, s);
    }
    PinnedWire(p, st.Known(), rows, i);
    if Wire(p, x) !in st.pinned {
      assert RowWires(p, rows) - next.pinned == RowWires(p, rows) - st.pinned - {Wire(p, x)};
    }
  }

  lemma PinnedWire(p: Prime, known: set<Form>, rows: seq<GadgetRow>, i: nat)
    requires i < |rows| && Pins(p, known, rows[i]).Some?
    ensures Wire(p, Pins(p, known, rows[i]).value) in RowWires(p, rows)
  {
    hide InSet, CanonicalLc;
    var r := rows[i];
    assert Sides(r)[0] == r.a && Sides(r)[1] == r.b && Sides(r)[2] == r.c;
  }

  /** Every row, once. */
  method PassRows(p: Prime, rows: seq<GadgetRow>, ghost calls0: seq<Call>, st0: State)
    returns (st: State, changed: bool)
    requires Right(p, rows, calls0, st0)
    ensures Right(p, rows, calls0, st) && st == st0.(pinned := st.pinned)
    ensures if changed then Left(p, rows, st) < Left(p, rows, st0) else st == st0 && forall i :: 0 <= i < |rows| ==>
      RowDone(p, st, rows[i])
  {
    hide Right, Left, Pins, CanonicalLc;
    st, changed := st0, false;
    for i := 0 to |rows|
      invariant Right(p, rows, calls0, st) && st == st0.(pinned := st.pinned)
      invariant if changed then Left(p, rows, st) < Left(p, rows, st0) else st == st0 && forall j :: 0 <= j < i ==>
        RowDone(p, st, rows[j])
    {
      var pin := Pins(p, st.Known(), rows[i]);
      if pin.Some? {
        var w := Wire(p, pin.value);
        PinStays(p, rows, calls0, st, i);
        if w !in st.pinned {
          changed := true;
          st := st.(pinned := st.pinned + {w});
        }
      }
    }
  }

  // ----- one call -----

  ghost predicate CallDone(p: Prime, st: State, i: nat)
    requires i < |st.calls| && i < |st.learned|
  {
    var c := st.calls[i];
    if c.covered then st.learned[i] || (!IsToBits(c) && !Produces(p, st.Known(), c))
      else !Discharged(p, st.Known(), st.decomps, c)
  }

  lemma CoverStays(p: Prime, rows: seq<GadgetRow>, calls0: seq<Call>, st: State, i: nat)
    requires Right(p, rows, calls0, st) && i < |st.calls| && !st.calls[i].covered
      && Discharged(p, st.Known(), st.decomps, st.calls[i])
    ensures var next := st.(calls := st.calls[i := st.calls[i].(covered := true)]);
      Right(p, rows, calls0, next) && Left(p, rows, next) < Left(p, rows, st)
  {
    hide Spec, OkDecomps, AllBits, CanonicalLc, Repeated;
    var next := st.(calls := st.calls[i := st.calls[i].(covered := true)]);
    CoverOne(st.calls, i);
    forall s: Assignment | World(p, rows, calls0, s)
      ensures RightAt(p, next, s)
    {
      assert RightAt(p, st, s);
      SameCall(st.calls[i], calls0[i]);
      DischargedIsSpec(p, rows, calls0, st.Known(), st.decomps, i, s);
      SpecFlag(p, calls0[i], next.calls[i], s);
    }
  }

  lemma SameCall(a: Call, b: Call)
    requires a.(covered := b.covered) == b
    ensures a.kind == b.kind && a.inputs == b.inputs && a.outputs == b.outputs && a.silent == b.silent
      && a.plugs == b.plugs
  {
  }

  lemma SpecFlag(p: Prime, a: Call, b: Call, s: Assignment)
    requires a.kind == b.kind && a.inputs == b.inputs && a.outputs == b.outputs && Spec(p, a, s)
    ensures Spec(p, b, s)
  {
  }

  /** A covered call teaches its decomposition and its output bits. */
  function Learned(p: Prime, st: State, i: nat): State
    requires i < |st.calls| == |st.learned|
  {
    var c := st.calls[i];
    var key := if IsToBits(c) then Key(p, c) else (Form(0, []), 0);
    var decomps := if IsToBits(c) && key !in st.decomps then st.decomps[key := Wires(p, c.outputs)] else st.decomps;
    if Produces(p, st.Known(), c) then
      State(st.bits + (set x | x in Wires(p, c.outputs)), st.pinned, decomps, st.calls, st.learned[i := true])
    else st.(decomps := decomps)
  }

  lemma LearnStays(p: Prime, rows: seq<GadgetRow>, calls0: seq<Call>, st: State, i: nat)
    requires Right(p, rows, calls0, st) && i < |st.calls| && st.calls[i].covered && !st.learned[i]
    ensures Right(p, rows, calls0, Learned(p, st, i))
    ensures Produces(p, st.Known(), st.calls[i]) ==> Left(p, rows, Learned(p, st, i)) < Left(p, rows, st)
  {
    hide CanonicalLc, InSet, Recomposed, IsBit, SameValue;
    var next := Learned(p, st, i);
    LearnOne(st.learned, i);
    forall s: Assignment | World(p, rows, calls0, s)
      ensures RightAt(p, next, s)
    {
      assert RightAt(p, st, s);
      LearnAt(p, st, i, s);
    }
  }

  lemma LearnAt(p: Prime, st: State, i: nat, s: Assignment)
    requires i < |st.calls| == |st.learned| && st.calls[i].covered && RightAt(p, st, s)
    ensures RightAt(p, Learned(p, st, i), s)
  {
    hide CanonicalLc, InSet, Recomposed, IsBit, SameValue;
    var (c, next) := (st.calls[i], Learned(p, st, i));
    assert Spec(p, c, s);
    if IsToBits(c) {
      SpellsWires(p, c.outputs, c.inputs[0], s);
    }
    if Produces(p, st.Known(), c) {
      if !c.kind.free {
        InSetAll(p, st.Known(), c.inputs, s);
      }
      forall x | x in next.Known()
        ensures IsBit(p, x, s)
      {
        if x in Wires(p, c.outputs) {
          var j :| 0 <= j < |c.outputs| && Wires(p, c.outputs)[j] == x;
          WireBit(p, c.outputs[j], s);
        }
      }
    }
  }

  lemma CoverTaught(p: Prime, st: State, i: nat)
    requires Taught(p, st) && i < |st.calls|
    ensures Taught(p, st.(calls := st.calls[i := st.calls[i].(covered := true)]))
  {
    hide CanonicalLc;
    var next := st.(calls := st.calls[i := st.calls[i].(covered := true)]);
    forall j | 0 <= j < |st.calls| && st.learned[j]
      ensures TaughtBy(p, next, next.calls[j])
    {
      assert TaughtBy(p, st, st.calls[j]);
    }
    forall k | k in st.decomps
      ensures exists j :: 0 <= j < |next.calls| && Taken(p, next, k, next.calls[j])
    {
      var j :| 0 <= j < |st.calls| && Taken(p, st, k, st.calls[j]);
      assert Taken(p, next, k, next.calls[j]);
    }
  }

  lemma LearnTaught(p: Prime, st: State, i: nat)
    requires Taught(p, st) && i < |st.calls| && st.calls[i].covered && !st.learned[i]
    ensures Taught(p, Learned(p, st, i)) && Learned(p, st, i).calls == st.calls
  {
    hide CanonicalLc, Produces;
    var (next, c) := (Learned(p, st, i), st.calls[i]);
    forall j | 0 <= j < |st.calls| && next.learned[j]
      ensures TaughtBy(p, next, next.calls[j])
    {
      if j == i {
        forall k | 0 <= k < |c.outputs|
          ensures Wire(p, c.outputs[k]) in next.bits
        {
          assert Wires(p, c.outputs)[k] in Wires(p, c.outputs);
        }
      } else {
        assert TaughtBy(p, st, st.calls[j]);
      }
    }
    forall k | k in next.decomps
      ensures exists j :: 0 <= j < |next.calls| && Taken(p, next, k, next.calls[j])
    {
      if k in st.decomps {
        var j :| 0 <= j < |st.calls| && Taken(p, st, k, st.calls[j]);
        assert Taken(p, next, k, next.calls[j]);
      } else {
        assert Taken(p, next, k, next.calls[i]);
      }
    }
  }

  /** Every call, once. */
  method PassCalls(p: Prime, rows: seq<GadgetRow>, ghost calls0: seq<Call>, st0: State)
    returns (st: State, changed: bool)
    requires Right(p, rows, calls0, st0) && Taught(p, st0) && forall i :: 0 <= i < |calls0| ==> OkKind(calls0[i].kind)
    ensures Right(p, rows, calls0, st) && Taught(p, st)
    ensures if changed then Left(p, rows, st) < Left(p, rows, st0)
            else st == st0 && |st.learned| == |st.calls| && forall i :: 0 <= i < |st.calls| ==> CallDone(p, st, i)
  {
    hide Left, CanonicalLc, Discharged, Produces, RightAt, Taught, Learned;
    st, changed := st0, false;
    for i := 0 to |st0.calls|
      invariant Right(p, rows, calls0, st) && Taught(p, st) && |st.calls| == |st.learned| == |st0.calls|
      invariant if changed then Left(p, rows, st) < Left(p, rows, st0) else st == st0 && forall j :: 0 <= j < i ==>
        CallDone(p, st, j)
    {
      if !st.calls[i].covered && Discharged(p, st.Known(), st.decomps, st.calls[i]) {
        CoverStays(p, rows, calls0, st, i);
        CoverTaught(p, st, i);
        changed := true;
        st := st.(calls := st.calls[i := st.calls[i].(covered := true)]);
      }
      if st.calls[i].covered && !st.learned[i] {
        LearnStays(p, rows, calls0, st, i);
        LearnTaught(p, st, i);
        KindProduces(p, st, calls0, i);
        if Produces(p, st.Known(), st.calls[i]) {
          changed := true;
        }
        st := Learned(p, st, i);
      }
    }
  }

  /** `to_bits` always teaches. */
  lemma KindProduces(p: Prime, st: State, calls0: seq<Call>, i: nat)
    requires MoreCovered(calls0, st.calls) && i < |st.calls| == |st.learned| && OkKind(calls0[i].kind)
    ensures IsToBits(st.calls[i]) ==> Produces(p, st.Known(), st.calls[i])
    ensures !Produces(p, st.Known(), st.calls[i]) ==> Learned(p, st, i) == st
  {
    SameCall(st.calls[i], calls0[i]);
  }

  lemma TaughtPinned(p: Prime, st: State, next: State)
    requires Taught(p, st) && next == st.(pinned := next.pinned)
    ensures Taught(p, next)
  {
    hide CanonicalLc;
    forall j | 0 <= j < |st.calls| && st.learned[j]
      ensures TaughtBy(p, next, next.calls[j])
    {
      assert TaughtBy(p, st, st.calls[j]);
    }
    forall k | k in st.decomps
      ensures exists j :: 0 <= j < |next.calls| && Taken(p, next, k, next.calls[j])
    {
      var j :| 0 <= j < |st.calls| && Taken(p, st, k, st.calls[j]);
      assert Taken(p, next, k, next.calls[j]);
    }
  }

  // ----- nothing more follows -----

  predicate IsZero(x: Form) {
    x.terms == [] && x.constant == 0
  }

  predicate SameWire(p: Prime, x: Form, y: Form) {
    Wire(p, x) == Wire(p, y)
  }

  predicate AllInSet(p: Prime, known: set<Form>, xs: seq<Form>) {
    forall i :: 0 <= i < |xs| ==> InSet(p, known, xs[i])
  }

  /** What `x · x = x`, `x · (x − 1) = 0` in either order, and a product of bits show to be a bit is known to be one. */
  predicate RowClosed(p: Prime, known: set<Form>, r: GadgetRow) {
    && (r.a == r.b == r.c ==> InSet(p, known, r.a))
    && (IsZero(r.c) && SameWire(p, MinusOne(r.a), r.b) ==> InSet(p, known, r.a))
    && (IsZero(r.c) && SameWire(p, MinusOne(r.b), r.a) && !SameWire(p, MinusOne(r.a), r.b) ==> InSet(p, known, r.b))
    && (InSet(p, known, r.a) && InSet(p, known, r.b) ==> InSet(p, known, r.c))
  }

  /** A silent `to_bits` is covered if its outputs are bits that sum to its input; or if a covered one takes the same
      wire apart into as many bits, and the outputs are those of one that does. */
  ghost predicate SilentClosed(p: Prime, known: set<Form>, calls: seq<Call>, c: Call)
    requires IsToBits(c)
  {
    && (|c.outputs| <= 253 && SameWire(p, Recomposed(c.outputs), c.inputs[0]) && AllInSet(p, known, c.outputs) ==>
      c.covered)
    && ((exists i :: 0 <= i < |calls| && Like(p, calls[i], c)) ==>
      exists i :: 0 <= i < |calls| && Like(p, calls[i], c)
        && (Wires(p, calls[i].outputs) == Wires(p, c.outputs) ==> c.covered))
  }

  /** A covered call that takes the same wire apart into as many bits. */
  predicate Like(p: Prime, d: Call, c: Call)
    requires IsToBits(c)
  {
    d.covered && IsToBits(d) && Key(p, d) == Key(p, c)
  }

  /** The outputs of a covered producer are known bits, and a call whose assumptions are known is covered. */
  ghost predicate CallClosed(p: Prime, known: set<Form>, calls: seq<Call>, c: Call) {
    && (c.covered && c.kind.producer && (c.kind.free || AllInSet(p, known, c.inputs)) ==>
      AllInSet(p, known, c.outputs))
    && if IsToBits(c) && c.silent && c.outputs != [] then SilentClosed(p, known, calls, c)
       else c.plugs && c.kind.assumes.Some? && AllInSet(p, known, Assumed(c)) ==> c.covered
  }

  lemma AllClosed(p: Prime, rows: seq<GadgetRow>, st: State)
    requires Taught(p, st) && forall i :: 0 <= i < |rows| ==> RowDone(p, st, rows[i])
    requires forall i :: 0 <= i < |st.calls| ==> CallDone(p, st, i)
    ensures forall i :: 0 <= i < |rows| ==> RowClosed(p, st.Known(), rows[i])
    ensures forall i :: 0 <= i < |st.calls| ==> CallClosed(p, st.Known(), st.calls, st.calls[i])
  {
    hide Taught, RowDone, CallDone, RowClosed, CallClosed;
    forall i | 0 <= i < |rows|
      ensures RowClosed(p, st.Known(), rows[i])
    {
      DoneRow(p, st, rows[i]);
    }
    forall i | 0 <= i < |st.calls|
      ensures CallClosed(p, st.Known(), st.calls, st.calls[i])
    {
      DoneCall(p, st, i);
    }
  }

  lemma PinnedInSet(p: Prime, st: State, r: GadgetRow)
    requires RowDone(p, st, r)
    ensures Pins(p, st.Known(), r).Some? ==> InSet(p, st.Known(), Pins(p, st.Known(), r).value)
  {
    hide CanonicalLc, OneMinus, Pins;
  }

  lemma ZeroInSet(p: Prime, known: set<Form>, x: Form)
    requires IsZero(x)
    ensures InSet(p, known, x)
  {
  }

  lemma DoneRow(p: Prime, st: State, r: GadgetRow)
    requires RowDone(p, st, r)
    ensures RowClosed(p, st.Known(), r)
  {
    PinnedInSet(p, st, r);
    if IsZero(r.c) {
      ZeroInSet(p, st.Known(), r.c);
    }
    hide MinusOne, InSet, Wire, RowDone;
  }

  lemma DoneCall(p: Prime, st: State, i: nat)
    requires Taught(p, st) && i < |st.calls| && forall j :: 0 <= j < |st.calls| ==> CallDone(p, st, j)
    ensures CallClosed(p, st.Known(), st.calls, st.calls[i])
  {
    hide CanonicalLc, Recomposed, OneMinus, SilentClosed;
    var c := st.calls[i];
    assert CallDone(p, st, i);
    if c.covered && st.learned[i] {
      assert TaughtBy(p, st, c);
    }
    if IsToBits(c) && c.silent && c.outputs != [] {
      DoneSilent(p, st, i);
    }
  }

  lemma DoneSilent(p: Prime, st: State, i: nat)
    requires Taught(p, st) && i < |st.calls| && IsToBits(st.calls[i]) && st.calls[i].silent && st.calls[i].outputs != []
    requires forall j :: 0 <= j < |st.calls| ==> CallDone(p, st, j)
    ensures SilentClosed(p, st.Known(), st.calls, st.calls[i])
  {
    hide CanonicalLc, Recomposed, OneMinus, InSet;
    var c := st.calls[i];
    assert CallDone(p, st, i);
    if k :| 0 <= k < |st.calls| && Like(p, st.calls[k], c) {
      assert CallDone(p, st, k) && TaughtBy(p, st, st.calls[k]);
      var j :| 0 <= j < |st.calls| && Taken(p, st, Key(p, c), st.calls[j]);
      assert Like(p, st.calls[j], c);
    }
  }

  lemma StartRight(p: Prime, rows: seq<GadgetRow>, calls: seq<Call>)
    ensures Right(p, rows, calls, State({}, {}, map[], calls, seq(|calls|, _ => false)))
    ensures Taught(p, State({}, {}, map[], calls, seq(|calls|, _ => false)))
  {
    hide Spec;
  }

  /**
   * `in_context`: rows and calls in turn, until nothing changes. Then what is called a bit is one in every solution,
   * every call called covered meets its `Spec`, and nothing more follows from what was found.
   */
  method InContext(p: Prime, rows: seq<GadgetRow>, calls0: seq<Call>) returns (calls: seq<Call>, ghost st: State)
    requires forall i :: 0 <= i < |calls0| ==> OkKind(calls0[i].kind)
    ensures calls == st.calls && Right(p, rows, calls0, st)
    ensures forall i :: 0 <= i < |rows| ==> RowDone(p, st, rows[i])
    ensures |st.learned| == |calls| && forall i :: 0 <= i < |calls| ==> CallDone(p, st, i)
    ensures forall i :: 0 <= i < |rows| ==> RowClosed(p, st.Known(), rows[i])
    ensures forall i :: 0 <= i < |calls| ==> CallClosed(p, st.Known(), calls, calls[i])
  {
    hide Right, Left, RowDone, CallDone, Taught, RowClosed, CallClosed;
    var now := State({}, {}, map[], calls0, seq(|calls0|, _ => false));
    StartRight(p, rows, calls0);
    while true
      invariant Right(p, rows, calls0, now) && Taught(p, now)
      decreases Left(p, rows, now)
    {
      var mid, byRows := PassRows(p, rows, calls0, now);
      TaughtPinned(p, now, mid);
      var next, byCalls := PassCalls(p, rows, calls0, mid);
      if !byRows && !byCalls {
        AllClosed(p, rows, next);
        return next.calls, next;
      }
      now := next;
    }
  }
}
