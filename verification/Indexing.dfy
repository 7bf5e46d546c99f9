/** A witness index as a base and the offsets it can have: a grid, or the sums of its bits' weights. */
module Indexing {
  import opened Words
  import opened Collections
  import opened Fields
  import opened Linear
  import opened Circuits
  import opened Intervals

  /** A weighted part of a form, with the largest value it can have. */
  datatype Piece = Piece(c: int, top: nat)

  ghost predicate Fills(pieces: seq<Piece>, xs: seq<nat>) {
    |xs| == |pieces| && forall i :: 0 <= i < |xs| ==> xs[i] <= pieces[i].top
  }

  function Weighed(pieces: seq<Piece>, xs: seq<nat>): int
    requires |xs| == |pieces|
  {
    if pieces == [] then 0 else Weighed(pieces[..|pieces| - 1], xs[..|xs| - 1]) + pieces[|pieces| - 1].c * xs[|xs| - 1]
  }

  /** Smallest and largest weighed sum. */
  function Least(pieces: seq<Piece>): int {
    if pieces == [] then 0
    else var t := pieces[|pieces| - 1]; Least(pieces[..|pieces| - 1]) + if t.c < 0 then t.c * t.top else 0
  }

  function Most(pieces: seq<Piece>): int {
    if pieces == [] then 0
    else var t := pieces[|pieces| - 1]; Most(pieces[..|pieces| - 1]) + if t.c > 0 then t.c * t.top else 0
  }

  function Gcd(a: nat, b: nat): nat
    decreases b
  {
    if b == 0 then a else Gcd(b, a % b)
  }

  function Abs(c: int): nat { if c < 0 then -c else c }

  /** The step of the grid: the weights' greatest common divisor. */
  function Step(pieces: seq<Piece>): nat {
    if pieces == [] then 0 else Gcd(Step(pieces[..|pieces| - 1]), Abs(pieces[|pieces| - 1].c))
  }

  lemma {:induction false} GcdDivides(a: nat, b: nat)
    requires a > 0 || b > 0
    ensures Gcd(a, b) > 0 && Divides(Gcd(a, b), a) && Divides(Gcd(a, b), b)
    decreases b
  {
    if b > 0 {
      GcdDivides(b, a % b);
      GcdStep(a, b, Gcd(a, b));
    }
  }

  lemma GcdStep(a: nat, b: nat, g: nat)
    requires b > 0 && g > 0 && Divides(g, b) && Divides(g, a % b)
    ensures Divides(g, a)
  {
    var j := Quotient(b, g);
    var k := Quotient(a % b, g);
    var q := a / b;
    assert a == b * q + a % b;
    assert (j * g) * q == (j * q) * g;
    assert a == (j * q + k) * g;
    MultipleDivides(j * q + k, g);
  }

  /** What divides the step divides every weight. */
  lemma {:induction false} StepDivides(pieces: seq<Piece>, g: nat, i: nat)
    requires Step(pieces) > 0 && g > 0 && Divides(g, Step(pieces)) && i < |pieces|
    ensures Divides(g, pieces[i].c)
  {
    var (most, t) := (pieces[..|pieces| - 1], pieces[|pieces| - 1]);
    var (a, b) := (Step(most), Abs(t.c));
    if a == 0 && b == 0 {
      ZeroGcd();
    }
    GcdDivides(a, b);
    DividesTrans(g, Gcd(a, b), a);
    DividesTrans(g, Gcd(a, b), b);
    if i == |pieces| - 1 {
      NegDivides(g, t.c);
    } else if a == 0 {
      ZeroStep(most, i);
    } else {
      StepDivides(most, g, i);
    }
  }

  lemma ZeroGcd()
    ensures Gcd(0, 0) == 0
  {
  }

  lemma {:induction false} ZeroStep(pieces: seq<Piece>, i: nat)
    requires Step(pieces) == 0 && i < |pieces|
    ensures pieces[i].c == 0
  {
    var (most, t) := (pieces[..|pieces| - 1], pieces[|pieces| - 1]);
    var (a, b) := (Step(most), Abs(t.c));
    if a > 0 || b > 0 {
      GcdDivides(a, b);
    }
    if i < |pieces| - 1 {
      ZeroStep(most, i);
    }
  }

  lemma DividesTrans(d: nat, e: nat, x: int)
    requires d > 0 && e > 0 && Divides(d, e) && Divides(e, x)
    ensures Divides(d, x)
  {
    var j := Quotient(e, d);
    var k := Quotient(x, e);
    assert x == (k * j) * d;
    MultipleDivides(k * j, d);
  }

  /** Every weighed sum lies between the least and the most, on the grid. */
  lemma {:induction false} OnGrid(pieces: seq<Piece>, xs: seq<nat>, g: nat)
    requires Fills(pieces, xs) && g > 0 && forall i :: 0 <= i < |pieces| ==> Divides(g, pieces[i].c)
    ensures Least(pieces) <= Weighed(pieces, xs) <= Most(pieces) && Divides(g, Weighed(pieces, xs) - Least(pieces))
  {
    if pieces != [] {
      var (most, t) := (pieces[..|pieces| - 1], pieces[|pieces| - 1]);
      var (less, x) := (xs[..|xs| - 1], xs[|xs| - 1]);
      OnGrid(most, less, g);
      PieceBounds(t.c, x, t.top);
      var k := Quotient(t.c, g);
      var d := Quotient(Weighed(most, less) - Least(most), g);
      GridStep(d, k, x, if t.c < 0 then t.top else 0, g, t.c);
    }
  }

  lemma PieceBounds(c: int, x: nat, top: nat)
    requires x <= top
    ensures (if c < 0 then c * top else 0) <= c * x <= (if c > 0 then c * top else 0)
  {
    if c < 0 {
      ScaleBound(-c, x, top);
      assert c * x == -(-c * x) && c * top == -(-c * top);
    } else {
      ScaleBound(c, x, top);
    }
  }

  lemma GridStep(d: int, k: int, x: int, y: int, g: nat, c: int)
    requires g > 0 && c == k * g
    ensures Divides(g, d * g + (c * x - c * y))
  {
    assert d * g + (c * x - c * y) == (d + k * (x - y)) * g;
    MultipleDivides(d + k * (x - y), g);
  }

  // ----- sums of bits -----

  /** Every sum of some of the weights. */
  function SubsetSums(pieces: seq<Piece>): seq<int> {
    if pieces == [] then [0]
    else
      var less := SubsetSums(pieces[..|pieces| - 1]);
      less + seq(|less|, i requires 0 <= i < |less| => less[i] + pieces[|pieces| - 1].c)
  }

  lemma {:induction false} SumsListed(pieces: seq<Piece>, xs: seq<nat>)
    requires Fills(pieces, xs) && forall i :: 0 <= i < |pieces| ==> pieces[i].top == 1
    ensures Weighed(pieces, xs) in SubsetSums(pieces)
  {
    if pieces != [] {
      var (most, c) := (pieces[..|pieces| - 1], pieces[|pieces| - 1].c);
      var (less, x) := (xs[..|xs| - 1], xs[|xs| - 1]);
      SumsListed(most, less);
      var sums := SubsetSums(most);
      var i :| 0 <= i < |sums| && sums[i] == Weighed(most, less);
      var all := SubsetSums(pieces);
      assert all[i] == sums[i] && all[|sums| + i] == sums[i] + c;
      assert c * x == if x == 1 then c else 0;
    }
  }

  // ----- the form -----

  /** In every solution, `x` is `constant` and a weighed sum of `pieces`, and the form `rest`. */
  ghost predicate Parts(p: Prime, c: Circuit, x: Lc, pieces: seq<Piece>, constant: int, rest: Lc)
    requires Indexed(c)
  {
    forall s: Assignment :: Meets(p, c, s) ==> PartsAt(p, x, pieces, constant, rest, s)
  }

  ghost predicate PartsAt(p: Prime, x: Lc, pieces: seq<Piece>, constant: int, rest: Lc, s: Assignment) {
    exists xs: seq<nat> :: Fills(pieces, xs) && Cong(p, Eval(x, s), constant + Weighed(pieces, xs) + Eval(rest, s))
  }

  lemma MorePieces(p: Prime, x: Lc, pieces: seq<Piece>, constant: int, rest: Lc, piece: Piece, constant': int,
                   rest': Lc, v: nat, s: Assignment)
    requires PartsAt(p, x, pieces, constant, rest, s) && v <= piece.top
    requires Cong(p, constant + Eval(rest, s), constant' + piece.c * v + Eval(rest', s))
    ensures PartsAt(p, x, pieces + [piece], constant', rest', s)
  {
    hide Eval, IsPrime;
    var xs: seq<nat> :| Fills(pieces, xs) && Cong(p, Eval(x, s), constant + Weighed(pieces, xs) + Eval(rest, s));
    var (more, ys) := (pieces + [piece], xs + [v]);
    assert more[..|more| - 1] == pieces && ys[..|ys| - 1] == xs;
    assert Fills(more, ys);
    CongAdd(p, constant + Eval(rest, s), constant' + piece.c * v + Eval(rest', s), Weighed(pieces, xs),
      Weighed(pieces, xs));
    assert Cong(p, Eval(x, s), constant' + Weighed(more, ys) + Eval(rest', s));
  }

  /** Weights a 64-bit coefficient can give, and tops an index is bounded by. */
  ghost predicate Modest(pieces: seq<Piece>) {
    forall i :: 0 <= i < |pieces| ==> Abs(pieces[i].c) <= 0x8000_0000_0000_0000 && pieces[i].top < 0x10_0000
  }

  // ----- the parts of a form -----

  /** The computed bits 0 of `x`, and what is left without them. */
  ghost function Drained(f: Facts, x: Lc, n: nat): (r: (seq<Piece>, Lc))
    requires Ending(f) && Below(x, n)
    ensures Below(r.1, n)
    decreases Weight(x, n)
  {
    match SplitComputedBit0(f, x)
    case None => ([], x)
    case Some(split) =>
      SplitEnds(f, x, n);
      var (pieces, rest) := Drained(f, split.1, n);
      ([Piece(split.0, 1)] + pieces, rest)
  }

  /** The term has a machine-sized coefficient and a variable of known small range. */
  predicate KnownTerm(f: Facts, t: Term) {
    IsI64(t.coeff) && VarMax(f, t.v).Some? && VarMax(f, t.v).value < 0x10_0000
  }

  function PieceOf(f: Facts, t: Term): Piece {
    Piece(t.coeff, match VarMax(f, t.v) case Some(top) => top case None => 0)
  }

  function TermPieces(f: Facts, ts: seq<Term>): (r: seq<Piece>)
    ensures |r| == |ts| && forall i :: 0 <= i < |ts| ==> r[i] == PieceOf(f, ts[i])
  {
    seq(|ts|, i requires 0 <= i < |ts| => PieceOf(f, ts[i]))
  }

  ghost predicate AllKnown(f: Facts, x: Lc, n: nat)
    requires Ending(f) && Below(x, n)
  {
    forall t :: t in Drained(f, x, n).1.terms ==> KnownTerm(f, t)
  }

  /** The parts of `x`: its computed bits 0, and its other terms. */
  ghost function PiecesOf(f: Facts, x: Lc, n: nat): seq<Piece>
    requires Ending(f) && Below(x, n)
  {
    Drained(f, x, n).0 + TermPieces(f, Drained(f, x, n).1.terms)
  }

  ghost predicate AllBits(f: Facts, x: Lc, n: nat)
    requires Ending(f) && Below(x, n)
  {
    forall t :: t in Drained(f, x, n).1.terms ==> t.v in f.booleans
  }

  /** The index has a form: every part's range is known, some part counts, the base is a 32-bit address, and there are
      at most ten bits or at most 1024 points on the grid. */
  ghost predicate Indexable(f: Facts, x: Lc, n: nat)
    requires Ending(f) && Below(x, n)
  {
    && AllKnown(f, x, n)
    && var (pieces, constant) := (PiecesOf(f, x, n), Drained(f, x, n).1.constant);
       && Step(pieces) != 0 && IsI64(constant) && 0 <= constant + Least(pieces) < 0x1_0000_0000
       && (|| (AllBits(f, x, n) && |pieces| <= 10)
           || (Least(pieces) <= Most(pieces) && (Most(pieces) - Least(pieces)) / Step(pieces) + 1 <= 1024))
  }

  /** Take out each computed bit 0. */
  method DrainBits(p: Prime, ghost c: Circuit, f: Facts, x: Lc, n: nat) returns (out: seq<Piece>, rest: Lc)
    requires Indexed(c) && OkFacts(p, c, f) && Ending(f) && Below(x, n)
    ensures Parts(p, c, x, out, 0, rest) && Modest(out) && forall i :: 0 <= i < |out| ==> out[i].top == 1
    ensures (out, rest) == Drained(f, x, n)
  {
    hide Meets, Eval, IsPrime, OkFacts, Ending, PartsAt, Pow2, SplitComputedBit0;
    out, rest := [], x;
    NoPieces(p, c, x);
    var split := SplitComputedBit0(f, rest);
    while split.Some?
      invariant Below(rest, n) && split == SplitComputedBit0(f, rest) && Parts(p, c, x, out, 0, rest)
      invariant Modest(out) && forall i :: 0 <= i < |out| ==> out[i].top == 1
      invariant out + Drained(f, rest, n).0 == Drained(f, x, n).0 && Drained(f, rest, n).1 == Drained(f, x, n).1
      decreases Weight(rest, n)
    {
      SplitEnds(f, rest, n);
      SplitPart(p, c, f, x, out, rest);
      SplitWeight(f, rest);
      out := out + [Piece(split.value.0, 1)];
      rest := split.value.1;
      split := SplitComputedBit0(f, rest);
    }
    assert out + [] == out;
  }

  /** Then each term: the form's parts, and whether all are bits. */
  method PartsOf(p: Prime, ghost c: Circuit, f: Facts, x: Lc, n: nat)
    returns (pieces: Option<seq<Piece>>, constant: int, bits: bool)
    requires Indexed(c) && OkFacts(p, c, f) && Ending(f) && Below(x, n)
    ensures pieces.Some? ==> Parts(p, c, x, pieces.value, constant, Const(0)) && Modest(pieces.value)
    ensures pieces.Some? && bits ==> forall i :: 0 <= i < |pieces.value| ==> pieces.value[i].top == 1
    ensures pieces.Some? <==> AllKnown(f, x, n)
    ensures pieces.Some? ==> pieces.value == PiecesOf(f, x, n) && constant == Drained(f, x, n).1.constant
    ensures pieces.Some? ==> (bits <==> AllBits(f, x, n))
  {
    hide Meets, Eval, IsPrime, OkFacts, Ending, PartsAt, Parts, Pow2, SplitComputedBit0, VarMax, Drained, Canonical;
    var out, rest := DrainBits(p, c, f, x, n);
    ghost var bits0 := out;
    constant, bits := rest.constant, true;
    var k := 0;
    FirstTerm(p, c, x, out, rest);
    while k < |rest.terms|
      invariant 0 <= k <= |rest.terms| && Parts(p, c, x, out, constant, Tail(rest, k)) && Modest(out)
      invariant bits ==> forall i :: 0 <= i < |out| ==> out[i].top == 1
      invariant forall i :: 0 <= i < k ==> KnownTerm(f, rest.terms[i])
      invariant out == bits0 + TermPieces(f, rest.terms[..k])
      invariant bits <==> forall i :: 0 <= i < k ==> rest.terms[i].v in f.booleans
    {
      var t := rest.terms[k];
      var top := VarMax(f, t.v);
      assert t in rest.terms;
      if !IsI64(t.coeff) || top.None? || top.value >= 0x10_0000 {
        return None, 0, false;
      }
      TermPart(p, c, f, x, out, constant, rest, k, top.value);
      if t.v in f.booleans {
        BitTop(f, t.v);
      }
      bits := bits && t.v in f.booleans;
      out := out + [Piece(t.coeff, top.value)];
      k := k + 1;
    }
    LastTerm(rest);
    assert rest.terms[..k] == rest.terms;
    pieces := Some(out);
  }

  lemma BitTop(f: Facts, v: nat)
    requires v in f.booleans
    ensures VarMax(f, v) == Some(1)
  {
  }

  lemma FirstTerm(p: Prime, c: Circuit, x: Lc, pieces: seq<Piece>, rest: Lc)
    requires Indexed(c) && Parts(p, c, x, pieces, 0, rest)
    ensures Parts(p, c, x, pieces, rest.constant, Tail(rest, 0))
  {
    hide Meets;
    assert rest.terms[0..] == rest.terms;
    forall s: Assignment | Meets(p, c, s)
      ensures PartsAt(p, x, pieces, rest.constant, Tail(rest, 0), s)
    {
      var xs: seq<nat> :| Fills(pieces, xs) && Cong(p, Eval(x, s), 0 + Weighed(pieces, xs) + Eval(rest, s));
      assert Cong(p, Eval(x, s), rest.constant + Weighed(pieces, xs) + Eval(Tail(rest, 0), s));
    }
  }

  lemma LastTerm(rest: Lc)
    ensures Tail(rest, |rest.terms|) == Const(0)
  {
  }

  lemma TermPart(p: Prime, c: Circuit, f: Facts, x: Lc, pieces: seq<Piece>, constant: int, rest: Lc, k: nat, top: nat)
    requires Indexed(c) && OkFacts(p, c, f) && k < |rest.terms| && VarMax(f, rest.terms[k].v) == Some(top)
    requires Parts(p, c, x, pieces, constant, Tail(rest, k))
    ensures Parts(p, c, x, pieces + [Piece(rest.terms[k].coeff, top)], constant, Tail(rest, k + 1))
  {
    hide Meets, IsPrime, OkFacts, PartsAt;
    var t := rest.terms[k];
    forall s: Assignment | Meets(p, c, s)
      ensures PartsAt(p, x, pieces + [Piece(t.coeff, top)], constant, Tail(rest, k + 1), s)
    {
      VarMaxSound(p, c, f, t.v, s);
      TailEval(p, rest, k, constant, s);
      MorePieces(p, x, pieces, constant, Tail(rest, k), Piece(t.coeff, top), constant, Tail(rest, k + 1), s(t.v) % p,
        s);
    }
  }

  lemma TailEval(p: Prime, x: Lc, k: nat, constant: int, s: Assignment)
    requires k < |x.terms|
    ensures var t := x.terms[k];
      Cong(p, constant + Eval(Tail(x, k), s), constant + t.coeff * (s(t.v) % p) + Eval(Tail(x, k + 1), s))
  {
    hide IsPrime;
    var (t, more) := (x.terms[k], Eval(Tail(x, k + 1), s));
    assert x.terms[k..][1..] == x.terms[k + 1..];
    assert Eval(Tail(x, k), s) == t.coeff * s(t.v) + more;
    CongMod(p, s(t.v));
    CongMul(p, t.coeff, t.coeff, s(t.v), s(t.v) % p);
    CongAdd(p, t.coeff * s(t.v), t.coeff * (s(t.v) % p), constant + more, constant + more);
  }

  /** The terms of `x` from the `k`-th on. */
  function Tail(x: Lc, k: nat): Lc
    requires k <= |x.terms|
  {
    TailCanonical(x.terms, k);
    Form(0, x.terms[k..])
  }

  lemma {:induction false} TailCanonical(terms: seq<Term>, k: nat)
    requires Canonical(terms) && k <= |terms|
    ensures Canonical(terms[k..])
  {
    if k > 0 {
      TailCanonical(terms[1..], k - 1);
      assert terms[1..][k - 1..] == terms[k..];
    } else {
      assert terms[0..] == terms;
    }
  }

  lemma NoPieces(p: Prime, c: Circuit, x: Lc)
    requires Indexed(c)
    ensures Parts(p, c, x, [], 0, x)
  {
    hide Meets;
    forall s: Assignment
      ensures PartsAt(p, x, [], 0, x, s)
    {
      assert Fills([], []) && Weighed([], []) == 0;
    }
  }

  lemma SplitPart(p: Prime, c: Circuit, f: Facts, x: Lc, pieces: seq<Piece>, rest: Lc)
    requires Indexed(c) && OkFacts(p, c, f) && Ending(f) && SplitComputedBit0(f, rest).Some?
      && Parts(p, c, x, pieces, 0, rest)
    ensures var (k, next) := SplitComputedBit0(f, rest).value; Parts(p, c, x, pieces + [Piece(k, 1)], 0, next)
  {
    hide Meets, Eval, IsPrime, OkFacts, Ending, PartsAt, SplitComputedBit0, Cong, Weighed, Value, BitOf, Pow2;
    var (k, next) := SplitComputedBit0(f, rest).value;
    forall s: Assignment | Meets(p, c, s)
      ensures PartsAt(p, x, pieces + [Piece(k, 1)], 0, next, s)
    {
      SplitValue(p, c, f, rest, s);
      var b: nat :| b <= 1 && Cong(p, Eval(rest, s), k * b + Eval(next, s));
      MorePieces(p, x, pieces, 0, rest, Piece(k, 1), 0, next, b, s);
    }
  }

  lemma {:induction false} SplitSmall(f: Facts, x: Lc, n: nat)
    requires Ending(f) && n <= |x.terms| && SplitBelow(f, x, n).Some?
    ensures Abs(SplitBelow(f, x, n).value.0) <= 0x8000_0000_0000_0000
  {
    if SplitAt(f, x, n - 1).Some? {
      var t := x.terms[n - 1];
      var b0 := f.computed[t.v][0];
      QuotientSmaller(-t.coeff, -b0.terms[|b0.terms| - 1].coeff);
    } else {
      SplitSmall(f, x, n - 1);
    }
  }

  lemma SplitWeight(f: Facts, x: Lc)
    requires Ending(f) && SplitComputedBit0(f, x).Some?
    ensures Abs(SplitComputedBit0(f, x).value.0) <= 0x8000_0000_0000_0000
  {
    SplitSmall(f, x, |x.terms|);
  }

  lemma QuotientSmaller(a: int, k: int)
    requires a >= 0 && k > 0
    ensures 0 <= a / k <= a
  {
    var q := a / k;
    assert q <= q * k;
  }

  // ----- offsets -----

  lemma {:induction false} StepBound(pieces: seq<Piece>)
    requires Modest(pieces)
    ensures Step(pieces) <= 0x8000_0000_0000_0000
  {
    if pieces != [] {
      var (most, t) := (pieces[..|pieces| - 1], pieces[|pieces| - 1]);
      StepBound(most);
      var (a, b) := (Step(most), Abs(t.c));
      if b > 0 {
        GcdDivides(a, b);
        DivisorBound(Gcd(a, b), b);
      }
    }
  }

  lemma DivisorBound(g: nat, b: nat)
    requires g > 0 && b > 0 && Divides(g, b)
    ensures g <= b
  {
    var k := Quotient(b, g);
    if k >= 1 {
      AtLeast(k, g);
    } else {
      AtLeast(1 - k, g);
    }
  }

  /** Bits' weights add up to little. */
  lemma {:induction false} BitSpan(pieces: seq<Piece>)
    requires Modest(pieces) && forall i :: 0 <= i < |pieces| ==> pieces[i].top == 1
    ensures Most(pieces) - Least(pieces) <= |pieces| * 0x8000_0000_0000_0000
  {
    if pieces != [] {
      BitSpan(pieces[..|pieces| - 1]);
    }
  }

  /** The sums above the least, sorted and without repeats. */
  function Offsets(sums: seq<int>, lo: int): (r: seq<nat>)
    ensures forall x: int :: x in sums && x >= lo ==> x - lo in r
  {
    assert forall x: int :: x in sums ==> x == sums[0] || x in sums[1..];
    if sums == [] then []
    else if sums[0] < lo then Offsets(sums[1..], lo)
    else Insert(sums[0] - lo, Offsets(sums[1..], lo))
  }

  lemma {:induction false} OffsetsCount(sums: seq<int>, lo: int)
    ensures |Offsets(sums, lo)| <= |sums|
  {
    if sums != [] {
      OffsetsCount(sums[1..], lo);
    }
  }

  lemma {:induction false} SumsCount(pieces: seq<Piece>)
    ensures |SubsetSums(pieces)| == Pow2(|pieces|)
  {
    if pieces != [] {
      SumsCount(pieces[..|pieces| - 1]);
    }
  }

  lemma FewOffsets(pieces: seq<Piece>, lo: int)
    requires |pieces| <= 10
    ensures |Offsets(SubsetSums(pieces), lo)| <= 1024
  {
    hide Offsets, SubsetSums;
    OffsetsCount(SubsetSums(pieces), lo);
    SumsCount(pieces);
    Pow2Mono(|pieces|, 10);
    assert Pow2(10) == 1024 by { assert Pow2(8) == 256; }
  }

  function Grid(count: nat, g: nat): (r: seq<nat>)
    ensures |r| == count && forall j :: 0 <= j < count ==> r[j] == j * g
  {
    seq(count, j requires 0 <= j < count => j * g)
  }

  /** `x` is `base` and one of `offsets`, in every solution. */
  ghost predicate Ranges(p: Prime, c: Circuit, x: Lc, base: nat, offsets: seq<nat>)
    requires Indexed(c)
  {
    forall s: Assignment :: Meets(p, c, s) ==> Value(p, x, s) >= base && Value(p, x, s) - base in offsets
  }

  /** The base and offsets of an index that takes at most 1024 values. */
  method IndexForm(p: Prime, ghost c: Circuit, f: Facts, x: Lc, n: nat) returns (r: Option<(nat, seq<nat>)>)
    requires p > Pow2(253) && Indexed(c) && OkFacts(p, c, f) && Ending(f) && Below(x, n)
    ensures r.Some? ==> Ranges(p, c, x, r.value.0, r.value.1) && |r.value.1| <= 1024
    ensures r.Some? <==> Indexable(f, x, n)
  {
    hide Meets, Eval, IsPrime, OkFacts, Ending, Pow2, Parts, Step, Least, Most, SubsetSums, Modest, Ranges, Drained,
      AllKnown, AllBits, PiecesOf;
    var parts, constant, bits := PartsOf(p, c, f, x, n);
    if parts.None? {
      return None;
    }
    var pieces := parts.value;
    var (lo, hi, g) := (Least(pieces), Most(pieces), Step(pieces));
    if g == 0 || !IsI64(constant) {
      return None;
    }
    var base := constant + lo;
    if base < 0 || base >= 0x1_0000_0000 {
      return None;
    }
    if bits && |pieces| <= 10 {
      // At most ten bits have at most 1024 sums.
      var offsets := Offsets(SubsetSums(pieces), lo);
      FewOffsets(pieces, lo);
      SumsRange(p, c, x, pieces, constant, offsets);
      return Some((base, offsets));
    }
    if (hi - lo) / g + 1 > 1024 || hi < lo {
      return None;
    }
    var grid := Grid((hi - lo) / g + 1, g);
    GridRange(p, c, x, pieces, constant, grid);
    r := Some((base, grid));
  }

  /** A value written as a base and a small offset. */
  lemma SmallIndex(p: Prime, x: Lc, t: int, s: Assignment)
    requires p > Pow2(253) && Cong(p, Eval(x, s), t) && 0 <= t < Pow2(80)
    ensures Value(p, x, s) == t
  {
    hide Eval, IsPrime, Pow2;
    Pow2Mono(80, 253);
    ModSmall(t, p);
  }

  lemma Room80()
    ensures 0x1_0000_0000 + 1024 * 0x8000_0000_0000_0000 < Pow2(80)
  {
    TwoTo32Here();
    Pow2Add(32, 32);
    Pow2Add(64, 16);
    assert Pow2(8) == 256;
    Pow2Add(8, 8);
  }

  lemma SumsRange(p: Prime, c: Circuit, x: Lc, pieces: seq<Piece>, constant: int, offsets: seq<nat>)
    requires p > Pow2(253) && Indexed(c) && Parts(p, c, x, pieces, constant, Const(0)) && Modest(pieces)
      && |pieces| <= 10
    requires forall i :: 0 <= i < |pieces| ==> pieces[i].top == 1
    requires 0 <= constant + Least(pieces) < 0x1_0000_0000 && offsets == Offsets(SubsetSums(pieces), Least(pieces))
    ensures Ranges(p, c, x, constant + Least(pieces), offsets)
  {
    hide Meets, Eval, IsPrime, Pow2, Least, Most, SubsetSums, Weighed, Offsets, Value, Modest, Parts, Cong;
    Room80();
    BitSpan(pieces);
    forall i | 0 <= i < |pieces|
      ensures Divides(1, pieces[i].c)
    {
    }
    forall s: Assignment | Meets(p, c, s)
      ensures Value(p, x, s) >= constant + Least(pieces) && Value(p, x, s) - (constant + Least(pieces)) in offsets
    {
      var xs := PartsOfValue(p, c, x, pieces, constant, s);
      OnGrid(pieces, xs, 1);
      SumsListed(pieces, xs);
      SmallIndex(p, x, constant + Weighed(pieces, xs), s);
      assert Weighed(pieces, xs) - Least(pieces) in offsets;
    }
  }

  lemma PartsOfValue(p: Prime, c: Circuit, x: Lc, pieces: seq<Piece>, constant: int, s: Assignment)
    returns (xs: seq<nat>)
    requires Indexed(c) && Parts(p, c, x, pieces, constant, Const(0)) && Meets(p, c, s)
    ensures Fills(pieces, xs) && Cong(p, Eval(x, s), constant + Weighed(pieces, xs))
  {
    hide Meets;
    assert PartsAt(p, x, pieces, constant, Const(0), s);
    xs :| Fills(pieces, xs) && Cong(p, Eval(x, s), constant + Weighed(pieces, xs) + Eval(Const(0), s));
  }

  lemma GridRange(p: Prime, c: Circuit, x: Lc, pieces: seq<Piece>, constant: int, grid: seq<nat>)
    requires p > Pow2(253) && Indexed(c) && Parts(p, c, x, pieces, constant, Const(0)) && Modest(pieces)
      && Step(pieces) > 0
    requires 0 <= constant + Least(pieces) < 0x1_0000_0000 && Least(pieces) <= Most(pieces)
    requires (Most(pieces) - Least(pieces)) / Step(pieces) + 1 <= 1024
    requires grid == Grid((Most(pieces) - Least(pieces)) / Step(pieces) + 1, Step(pieces))
    ensures Ranges(p, c, x, constant + Least(pieces), grid)
  {
    hide Meets, Eval, IsPrime, Pow2, Least, Most, Step, Weighed, Value;
    Room80();
    StepBound(pieces);
    var (lo, hi, g) := (Least(pieces), Most(pieces), Step(pieces));
    ModSmall(0, g);
    forall i | 0 <= i < |pieces|
      ensures Divides(g, pieces[i].c)
    {
      MultipleDivides(1, g);
      StepDivides(pieces, g, i);
    }
    forall s: Assignment | Meets(p, c, s)
      ensures Value(p, x, s) >= constant + lo && Value(p, x, s) - (constant + lo) in grid
    {
      var xs := PartsOfValue(p, c, x, pieces, constant, s);
      OnGrid(pieces, xs, g);
      var j := OnGridIndex(Weighed(pieces, xs) - lo, hi - lo, g);
      assert grid[j] == Weighed(pieces, xs) - lo;
      SmallIndex(p, x, constant + Weighed(pieces, xs), s);
    }
  }

  lemma OnGridIndex(d: int, span: int, g: nat) returns (j: nat)
    requires g > 0 && Divides(g, d) && 0 <= d <= span && span / g + 1 <= 1024 && g <= 0x8000_0000_0000_0000
    ensures j < span / g + 1 && d == j * g && d <= 1024 * 0x8000_0000_0000_0000
  {
    var k := Quotient(d, g);
    j := d / g;
    ModUnique(d, g, k, 0);
    var q := span / g;
    assert span == q * g + span % g;
    assert span < (q + 1) * g;
    QuotientBelow(d, g, q + 1);
    ScaleBound(g, j, 1024);
    ScaleBound(1024, g, 0x8000_0000_0000_0000);
    assert g * j == j * g;
  }
}
