/**
 * Loads and stores through witness pointers: `base + index` for an index of few values, and selects of
 * pointers. The value, or the new memory, is a select over every address the pointer can hold.
 */
module Pointers {
  import opened Words
  import opened Collections
  import opened SymValues
  import opened SymMemory
  import opened Lowering

  /** A pointer as `base + idx`, with `idx` among `offsets`. */
  datatype Form = Form(base: nat, offsets: seq<nat>, idx: V)

  function Slot(f: Form, i: nat, off: nat): nat
    requires i < |f.offsets|
  {
    (f.base + f.offsets[i]) % U32 + off
  }

  /** `f` describes `a` whatever the inputs. */
  ghost predicate IsForm(syms: seq<Sym>, a: V, f: Form) {
    && Narrow(syms, f.idx)
    && forall inp ::
         var vals := Valuation(syms, inp);
         Val(vals, a) == (f.base + Val(vals, f.idx)) % U32 && Val(vals, f.idx) in f.offsets
  }

  /** The index forms of the wires used as pointers. */
  type Forms = map<nat, Form>

  ghost predicate OkForms(syms: seq<Sym>, forms: Forms) {
    forall s :: s in forms ==> 0 < s < |syms| && IsForm(syms, V(0, s), forms[s])
  }

  lemma FormStable(syms: seq<Sym>, more: seq<Sym>, a: V, f: Form)
    requires syms <= more && OkV(a, |syms|) && IsForm(syms, a, f)
    ensures IsForm(more, a, f)
  {
    NarrowStable(syms, more, f.idx);
    NarrowOk(syms, f.idx);
    forall inp
      ensures var vals := Valuation(more, inp);
        Val(vals, a) == (f.base + Val(vals, f.idx)) % U32 && Val(vals, f.idx) in f.offsets
    {
      Stable(syms, more, a, inp);
      Stable(syms, more, f.idx, inp);
    }
  }

  lemma FormsStable(syms: seq<Sym>, more: seq<Sym>, forms: Forms)
    requires syms <= more && OkForms(syms, forms)
    ensures OkForms(more, forms)
  {
    forall s | s in forms
      ensures IsForm(more, V(0, s), forms[s])
    {
      FormStable(syms, more, V(0, s), forms[s]);
    }
  }

  // ----- what an access means -----

  /** The word at `p`. */
  function WordAt(bytes: seq<Byte>, p: nat, size: nat): nat
    requires p + size <= |bytes|
  {
    FromBytes(bytes[p..p + size])
  }

  /** `eq` is true where the index is `o`. */
  ghost predicate Tests(syms: seq<Sym>, idx: V, o: nat, eq: V) {
    (eq == C(0) || (eq.b == 0 && IsCond(syms, eq.s)))
    && forall inp :: (Val(Valuation(syms, inp), eq) != 0) == (Val(Valuation(syms, inp), idx) == o)
  }

  /** Slot `j` from `i` on is the one the index names, and is in bounds. */
  ghost predicate Names(f: Form, off: nat, size: nat, n: nat, x: nat, i: nat, j: nat) {
    i <= j < |f.offsets| && f.offsets[j] == x && Slot(f, j, off) + size <= n
  }

  /** From slot `i` on, the index names no slot in bounds. */
  ghost predicate NamesNone(f: Form, off: nat, size: nat, n: nat, x: nat, i: nat) {
    forall j: nat :: !Names(f, off, size, n, x, i, j)
  }

  /** From slot `i` on, the index names no slot that is out of bounds. */
  ghost predicate Avoids(f: Form, off: nat, size: nat, n: nat, x: nat, i: nat) {
    forall j :: i <= j < |f.offsets| && f.offsets[j] == x ==> Slot(f, j, off) + size <= n
  }

  /** The new requirements say, where the guards are taken, that the index avoids the slots out of bounds. */
  ghost predicate RulesOut(guards: seq<Lit>, f: Form, off: nat, size: nat, n: nat, i: nat, reqs0: seq<Req>,
                           syms: seq<Sym>, reqs: seq<Req>) {
    forall inp ::
      var vals := Valuation(syms, inp);
      Taken(guards, vals) ==> (AllBind(reqs, |reqs0|, vals) <==> Avoids(f, off, size, n, Val(vals, f.idx), i))
  }

  /** `v` is the word at whichever slot from `i` on the index names. */
  ghost predicate LoadsSlots(syms0: seq<Sym>, cells: seq<Cell>, f: Form, off: nat, size: nat, i: nat, syms: seq<Sym>,
                             v: V) {
    forall inp, j ::
      var vals := Valuation(syms0, inp);
      Names(f, off, size, |cells|, Val(vals, f.idx), i, j)
      ==> Val(Valuation(syms, inp), v) == WordAt(CellVals(vals, cells), Slot(f, j, off), size)
  }

  lemma RulesOutNothing(guards: seq<Lit>, f: Form, off: nat, size: nat, n: nat, syms: seq<Sym>, reqs: seq<Req>)
    ensures RulesOut(guards, f, off, size, n, |f.offsets|, reqs, syms, reqs) && Under(guards, reqs, reqs)
  {
  }

  lemma RulesOutSlot(guards: seq<Lit>, f: Form, off: nat, size: nat, n: nat, i: nat, syms0: seq<Sym>, reqs0: seq<Req>,
                     eq: V, reqs1: seq<Req>, syms: seq<Sym>, reqs: seq<Req>)
    requires i < |f.offsets| && OkGuards(guards, syms0) && OkReqs(reqs1, syms0) && syms0 <= syms && Narrow(syms0, f.idx)
    requires Tests(syms0, f.idx, f.offsets[i], eq)
    requires var out := Slot(f, i, off) + size > n && eq.IsSym();
      reqs1 == if out then reqs0 + [Req(guards, V(0, eq.s), false)] else reqs0
    requires RulesOut(guards, f, off, size, n, i + 1, reqs1, syms, reqs) && Under(guards, reqs1, reqs)
    ensures RulesOut(guards, f, off, size, n, i, reqs0, syms, reqs) && Under(guards, reqs0, reqs)
  {
    hide Valuation;
    forall inp | Taken(guards, Valuation(syms, inp))
      ensures var vals := Valuation(syms, inp);
        AllBind(reqs, |reqs0|, vals) <==> Avoids(f, off, size, n, Val(vals, f.idx), i)
    {
      var vals := Valuation(syms, inp);
      NarrowOk(syms0, f.idx);
      Stable(syms0, syms, f.idx, inp);
      AllBindSplit(reqs0, reqs1, reqs, vals);
      AllBindStable(reqs1, |reqs0|, syms0, syms, inp);
      TakenStable(guards, syms0, syms, inp);
      OneBind(guards, reqs0, eq, Valuation(syms0, inp));
      assert (Val(Valuation(syms0, inp), eq) != 0) == (Val(Valuation(syms0, inp), f.idx) == f.offsets[i]);
      AvoidsStep(f, off, size, n, Val(vals, f.idx), i);
    }
  }

  lemma OneBind(guards: seq<Lit>, reqs: seq<Req>, eq: V, vals: seq<nat>)
    requires Taken(guards, vals)
    ensures AllBind(reqs, |reqs|, vals)
    ensures AllBind(reqs + [Req(guards, V(0, eq.s), false)], |reqs|, vals) <==> Val(vals, V(0, eq.s)) == 0
  {
    var more := reqs + [Req(guards, V(0, eq.s), false)];
    assert AllBind(more, |reqs|, vals) <==> Binds(more[|reqs|], vals);
  }

  lemma AvoidsStep(f: Form, off: nat, size: nat, n: nat, x: nat, i: nat)
    requires i < |f.offsets|
    ensures Avoids(f, off, size, n, x, i)
       <==> Avoids(f, off, size, n, x, i + 1) && (f.offsets[i] == x ==> Slot(f, i, off) + size <= n)
  {
  }

  // ----- loads -----

  /** Whether the index is `o`: decided if it cannot be, a wire if it can. */
  method IndexIs(h: Host, idx: V, o: nat) returns (r: Status, eq: V)
    requires h.Valid() && Narrow(h.memory.syms, idx) && o < U32
    modifies h.memory`syms
    ensures h.Valid() && old(h.memory.syms) <= h.memory.syms && !r.Diverged? && (r.Failed? ==> h.probing)
    ensures r.Ok? ==> Tests(h.memory.syms, idx, o, eq)
  {
    hide Narrow, Valuation, OkReqs, OkGuards;
    ghost var syms := h.memory.syms;
    NarrowOk(syms, idx);
    if idx.IsSym() && h.memory.syms[idx.s].Wire? && o >= Pow2(h.memory.syms[idx.s].width) {
      TooWide(syms, idx, o);
      return Ok, C(0);
    }
    r, eq := h.IntCmp(Cmp.Eq, idx, C(o));
    if r.Ok? {
      EqTests(syms, idx, o, h.memory.syms, eq);
    }
  }

  lemma TooWide(syms: seq<Sym>, idx: V, o: nat)
    requires OkSyms(syms) && idx.IsSym() && idx.s < |syms| && syms[idx.s].Wire? && o >= Pow2(syms[idx.s].width)
    ensures Tests(syms, idx, o, C(0))
  {
    forall inp
      ensures Val(Valuation(syms, inp), idx) != o
    {
      SymBound(syms, inp, idx.s);
    }
  }

  lemma EqTests(syms0: seq<Sym>, idx: V, o: nat, syms: seq<Sym>, eq: V)
    requires Narrow(syms0, idx) && Worth(syms0, CmpOf(Cmp.Eq, idx, C(o)), syms, eq) && IsCond(syms, eq.s) && eq.b == 0
      && syms0 <= syms
    ensures Tests(syms, idx, o, eq)
  {
    forall inp
      ensures (Val(Valuation(syms, inp), eq) != 0) == (Val(Valuation(syms, inp), idx) == o)
    {
      NarrowOk(syms0, idx);
      Stable(syms0, syms, idx, inp);
    }
  }

  /** Require that the index is not `o`, unless it cannot be. */
  method RuleOut(h: Host, eq: V) returns (r: Status)
    requires h.Valid() && (eq == C(0) || (eq.b == 0 && IsCond(h.memory.syms, eq.s)))
    modifies h`reqs
    ensures h.Valid() && !r.Diverged? && (r.Failed? ==> h.probing) && Under(h.guards, old(h.reqs), h.reqs)
    ensures r.Ok? ==> h.reqs == if eq.IsSym() then old(h.reqs) + [Req(h.guards, V(0, eq.s), false)] else old(h.reqs)
  {
    r := Ok;
    if eq.IsSym() {
      r := h.RequireCond(eq.s, false);
    }
  }

  lemma TestStable(syms: seq<Sym>, more: seq<Sym>, idx: V, o: nat, eq: V)
    requires syms <= more && Narrow(syms, idx) && Tests(syms, idx, o, eq)
    ensures Tests(more, idx, o, eq)
  {
    NarrowOk(syms, idx);
    forall inp
      ensures (Val(Valuation(more, inp), eq) != 0) == (Val(Valuation(more, inp), idx) == o)
    {
      Stable(syms, more, idx, inp);
      Stable(syms, more, eq, inp);
    }
  }

  lemma RulesOutStable(guards: seq<Lit>, f: Form, off: nat, size: nat, n: nat, i: nat, reqs0: seq<Req>, syms: seq<Sym>,
                       reqs: seq<Req>, more: seq<Sym>)
    requires syms <= more && OkGuards(guards, syms) && OkReqs(reqs, syms) && Narrow(syms, f.idx)
    requires RulesOut(guards, f, off, size, n, i, reqs0, syms, reqs)
    ensures RulesOut(guards, f, off, size, n, i, reqs0, more, reqs)
  {
    NarrowOk(syms, f.idx);
    forall inp | Taken(guards, Valuation(more, inp))
      ensures var vals := Valuation(more, inp);
        AllBind(reqs, |reqs0|, vals) <==> Avoids(f, off, size, n, Val(vals, f.idx), i)
    {
      TakenStable(guards, syms, more, inp);
      AllBindStable(reqs, |reqs0|, syms, more, inp);
      Stable(syms, more, f.idx, inp);
    }
  }

  /** The index and the bytes are what they were before symbols were added. */
  lemma SlotsStable(syms0: seq<Sym>, syms1: seq<Sym>, cells: seq<Cell>, f: Form, inp: Inputs)
    requires syms0 <= syms1 && Narrow(syms0, f.idx) && OkCells(cells, |syms0|)
    ensures Val(Valuation(syms1, inp), f.idx) == Val(Valuation(syms0, inp), f.idx)
    ensures CellVals(Valuation(syms1, inp), cells) == CellVals(Valuation(syms0, inp), cells)
  {
    NarrowOk(syms0, f.idx);
    Stable(syms0, syms1, f.idx, inp);
    ValuationPrefix(syms0, syms1, inp);
    CellValsStable(Valuation(syms0, inp), Valuation(syms1, inp), cells);
  }

  lemma SkippedSlot(syms0: seq<Sym>, syms1: seq<Sym>, cells: seq<Cell>, f: Form, off: nat, size: nat, i: nat,
                    syms: seq<Sym>, v: V)
    requires syms0 <= syms1 && Narrow(syms0, f.idx) && OkCells(cells, |syms0|) && i < |f.offsets|
      && Slot(f, i, off) + size > |cells|
    requires LoadsSlots(syms1, cells, f, off, size, i + 1, syms, v)
    ensures LoadsSlots(syms0, cells, f, off, size, i, syms, v)
  {
    hide Valuation, Narrow;
    forall inp, j | Names(f, off, size, |cells|, Val(Valuation(syms0, inp), f.idx), i, j)
      ensures Val(Valuation(syms, inp), v) == WordAt(CellVals(Valuation(syms0, inp), cells), Slot(f, j, off), size)
    {
      SlotsStable(syms0, syms1, cells, f, inp);
      assert Names(f, off, size, |cells|, Val(Valuation(syms1, inp), f.idx), i + 1, j);
    }
  }

  /** The word loaded at slot `i`. */
  ghost predicate IsWord(syms0: seq<Sym>, cells: seq<Cell>, p: nat, size: nat, syms: seq<Sym>, x: V)
    requires p + size <= |cells|
  {
    forall inp :: Val(Valuation(syms, inp), x) == WordAt(CellVals(Valuation(syms0, inp), cells), p, size)
  }

  lemma LoadedWord(syms0: seq<Sym>, syms1: seq<Sym>, cells: seq<Cell>, p: nat, size: nat, syms2: seq<Sym>, x: V)
    requires syms0 <= syms1 && OkCells(cells, |syms0|) && p + size <= |cells| && size <= 4
    requires Assembled(syms1, cells[p..p + size], syms2, x)
    ensures Narrow(syms2, x) && IsWord(syms0, cells, p, size, syms2, x)
  {
    hide Valuation, Narrow, OkSyms, FromBytes;
    forall inp
      ensures Val(Valuation(syms2, inp), x) == WordAt(CellVals(Valuation(syms0, inp), cells), p, size)
    {
      var vals := Valuation(syms1, inp);
      ValuationPrefix(syms0, syms1, inp);
      CellValsStable(Valuation(syms0, inp), vals, cells);
      assert CellVals(vals, cells[p..p + size]) == CellVals(vals, cells)[p..p + size];
    }
  }

  lemma WordStable(syms0: seq<Sym>, cells: seq<Cell>, p: nat, size: nat, syms: seq<Sym>, more: seq<Sym>, x: V)
    requires p + size <= |cells| && syms <= more && Narrow(syms, x) && IsWord(syms0, cells, p, size, syms, x)
    ensures IsWord(syms0, cells, p, size, more, x)
  {
    NarrowOk(syms, x);
    forall inp
      ensures Val(Valuation(more, inp), x) == WordAt(CellVals(Valuation(syms0, inp), cells), p, size)
    {
      Stable(syms, more, x, inp);
    }
  }

  lemma ChosenOnly(syms0: seq<Sym>, cells: seq<Cell>, f: Form, off: nat, size: nat, i: nat, syms: seq<Sym>, x: V)
    requires i < |f.offsets| && Slot(f, i, off) + size <= |cells|
      && IsWord(syms0, cells, Slot(f, i, off), size, syms, x)
    requires forall j :: i + 1 <= j < |f.offsets| ==> Slot(f, j, off) + size > |cells|
    ensures LoadsSlots(syms0, cells, f, off, size, i, syms, x)
  {
    forall inp, j | Names(f, off, size, |cells|, Val(Valuation(syms0, inp), f.idx), i, j)
      ensures Val(Valuation(syms, inp), x) == WordAt(CellVals(Valuation(syms0, inp), cells), Slot(f, j, off), size)
    {
      assert j == i;
    }
  }

  /** A select between slot `i`'s word and the later ones, on whether the index is slot `i`'s. */
  lemma ChosenSelect(syms0: seq<Sym>, cells: seq<Cell>, f: Form, off: nat, size: nat, i: nat, syms3: seq<Sym>, eq: V,
                     x: V, rest: V, syms4: seq<Sym>, y: V)
    requires i < |f.offsets| && Slot(f, i, off) + size <= |cells| && syms0 <= syms3 && Narrow(syms0, f.idx)
      && OkCells(cells, |syms0|)
    requires IsWord(syms0, cells, Slot(f, i, off), size, syms3, x)
      && LoadsSlots(syms0, cells, f, off, size, i + 1, syms3, rest)
    requires Tests(syms3, f.idx, f.offsets[i], eq)
    requires if eq.IsSym() then IsSelect(syms3, eq.s, x, rest, syms4, y) else y == rest && syms4 == syms3
    ensures LoadsSlots(syms0, cells, f, off, size, i, syms4, y)
  {
    hide Valuation, Narrow;
    forall inp, j | Names(f, off, size, |cells|, Val(Valuation(syms0, inp), f.idx), i, j)
      ensures Val(Valuation(syms4, inp), y) == WordAt(CellVals(Valuation(syms0, inp), cells), Slot(f, j, off), size)
    {
      SlotsStable(syms0, syms3, cells, f, inp);
      var k := Val(Valuation(syms3, inp), f.idx);
      assert (Val(Valuation(syms3, inp), eq) != 0) == (k == f.offsets[i]);
      assert Val(Valuation(syms3, inp), x) == WordAt(CellVals(Valuation(syms0, inp), cells), Slot(f, i, off), size);
      if k == f.offsets[i] {
        assert Slot(f, j, off) == Slot(f, i, off);
      } else {
        assert Names(f, off, size, |cells|, Val(Valuation(syms0, inp), f.idx), i + 1, j);
      }
    }
  }

  lemma LoadsEarlier(syms0: seq<Sym>, syms1: seq<Sym>, cells: seq<Cell>, f: Form, off: nat, size: nat, i: nat,
                     syms: seq<Sym>, v: V)
    requires syms0 <= syms1 && Narrow(syms0, f.idx) && OkCells(cells, |syms0|)
      && LoadsSlots(syms1, cells, f, off, size, i, syms, v)
    ensures LoadsSlots(syms0, cells, f, off, size, i, syms, v)
  {
    hide Valuation, Narrow;
    forall inp, j | Names(f, off, size, |cells|, Val(Valuation(syms0, inp), f.idx), i, j)
      ensures Val(Valuation(syms, inp), v) == WordAt(CellVals(Valuation(syms0, inp), cells), Slot(f, j, off), size)
    {
      SlotsStable(syms0, syms1, cells, f, inp);
      assert Names(f, off, size, |cells|, Val(Valuation(syms1, inp), f.idx), i, j);
    }
  }

  /** The slots from `i` on: requirements against those out of bounds, and a select over the others. */
  method LoadFrom(h: Host, f: Form, off: nat, size: nat, i: nat) returns (r: Status, v: Option<V>)
    requires h.Valid() && Narrow(h.memory.syms, f.idx) && i <= |f.offsets| && size <= 4
    requires forall j :: 0 <= j < |f.offsets| ==> f.offsets[j] < U32
    modifies h`reqs, h.memory`syms
    ensures h.Valid() && old(h.memory.syms) <= h.memory.syms && !r.Diverged? && (r.Failed? ==> h.probing)
    ensures Under(h.guards, old(h.reqs), h.reqs)
    ensures r.Ok? ==> RulesOut(h.guards, f, off, size, |h.memory.mem|, i, old(h.reqs), h.memory.syms, h.reqs)
    ensures r.Ok? && v.Some? ==> Narrow(h.memory.syms, v.value)
                                 && LoadsSlots(old(h.memory.syms), h.memory.Cells(), f, off, size, i, h.memory.syms,
                                   v.value)
    ensures r.Ok? ==> (v.None? <==> forall j :: i <= j < |f.offsets| ==> Slot(f, j, off) + size > |h.memory.mem|)
    ensures r.Ok? && (forall j :: i <= j < |f.offsets| ==> Slot(f, j, off) + size <= |h.memory.mem|) ==>
      h.reqs == old(h.reqs)
    decreases |f.offsets| - i
  {
    hide Narrow, Valuation, IsSelect, Assembled, Undo, Journaled, OkSyms, RulesOut, LoadsSlots, Under;
    ghost var (syms0, reqs0) := (h.memory.syms, h.reqs);
    RulesOutNothing(h.guards, f, off, size, |h.memory.mem|, syms0, reqs0);
    if i == |f.offsets| {
      return Ok, None;
    }
    var eq;
    r, eq := IndexIs(h, f.idx, f.offsets[i]);
    if !r.Ok? {
      return r, None;
    }
    ghost var syms1 := h.memory.syms;
    NarrowStable(syms0, syms1, f.idx);
    if Slot(f, i, off) + size > |h.memory.mem| {
      r, v := SkipSlot(h, f, off, size, i, eq, syms0);
    } else {
      r, v := TakeSlot(h, f, off, size, i, eq, syms0);
    }
  }

  /** Slot `i` is out of bounds. */
  method SkipSlot(h: Host, f: Form, off: nat, size: nat, i: nat, eq: V, ghost syms0: seq<Sym>)
    returns (r: Status, v: Option<V>)
    requires h.Valid() && i < |f.offsets| && size <= 4 && forall j :: 0 <= j < |f.offsets| ==> f.offsets[j] < U32
    requires syms0 <= h.memory.syms && Narrow(syms0, f.idx) && Narrow(h.memory.syms, f.idx)
      && OkCells(h.memory.Cells(), |syms0|)
    requires Slot(f, i, off) + size > |h.memory.mem| && Tests(h.memory.syms, f.idx, f.offsets[i], eq)
    modifies h`reqs, h.memory`syms
    ensures h.Valid() && old(h.memory.syms) <= h.memory.syms && !r.Diverged? && (r.Failed? ==> h.probing)
    ensures Under(h.guards, old(h.reqs), h.reqs)
    ensures r.Ok? ==> RulesOut(h.guards, f, off, size, |h.memory.mem|, i, old(h.reqs), h.memory.syms, h.reqs)
    ensures r.Ok? && v.Some? ==> Narrow(h.memory.syms, v.value)
                                 && LoadsSlots(syms0, h.memory.Cells(), f, off, size, i, h.memory.syms, v.value)
    ensures r.Ok? ==> (v.None? <==> forall j :: i <= j < |f.offsets| ==> Slot(f, j, off) + size > |h.memory.mem|)
    decreases |f.offsets| - i, 0
  {
    hide Narrow, Valuation, IsSelect, Assembled, Undo, Journaled, OkSyms, RulesOut, LoadsSlots, Under;
    ghost var (syms1, reqs0) := (h.memory.syms, h.reqs);
    v := None;
    r := RuleOut(h, eq);
    if !r.Ok? {
      return;
    }
    ghost var reqs1 := h.reqs;
    r, v := LoadFrom(h, f, off, size, i + 1);
    UnderTrans(h.guards, reqs0, reqs1, h.reqs);
    if r.Ok? {
      RulesOutSlot(h.guards, f, off, size, |h.memory.mem|, i, syms1, reqs0, eq, reqs1, h.memory.syms, h.reqs);
      if v.Some? {
        SkippedSlot(syms0, syms1, h.memory.Cells(), f, off, size, i, h.memory.syms, v.value);
      }
    }
  }

  /** Slot `i` is in bounds. */
  method TakeSlot(h: Host, f: Form, off: nat, size: nat, i: nat, eq: V, ghost syms0: seq<Sym>)
    returns (r: Status, v: Option<V>)
    requires h.Valid() && i < |f.offsets| && size <= 4 && forall j :: 0 <= j < |f.offsets| ==> f.offsets[j] < U32
    requires syms0 <= h.memory.syms && Narrow(syms0, f.idx) && Narrow(h.memory.syms, f.idx)
      && OkCells(h.memory.Cells(), |syms0|)
    requires Slot(f, i, off) + size <= |h.memory.mem| && Tests(h.memory.syms, f.idx, f.offsets[i], eq)
    modifies h`reqs, h.memory`syms
    ensures h.Valid() && old(h.memory.syms) <= h.memory.syms && !r.Diverged? && (r.Failed? ==> h.probing)
    ensures Under(h.guards, old(h.reqs), h.reqs)
    ensures r.Ok? ==> RulesOut(h.guards, f, off, size, |h.memory.mem|, i, old(h.reqs), h.memory.syms, h.reqs)
    ensures r.Ok? ==> v.Some? && Narrow(h.memory.syms, v.value)
                      && LoadsSlots(syms0, h.memory.Cells(), f, off, size, i, h.memory.syms, v.value)
    ensures r.Ok? && (forall j :: i <= j < |f.offsets| ==> Slot(f, j, off) + size <= |h.memory.mem|) ==>
      h.reqs == old(h.reqs)
    decreases |f.offsets| - i, 0
  {
    hide Narrow, Valuation, IsSelect, Assembled, Undo, Journaled, OkSyms, RulesOut, LoadsSlots, Under, IsWord;
    ghost var (syms1, reqs0, cells) := (h.memory.syms, h.reqs, h.memory.Cells());
    var p := Slot(f, i, off);
    var x := h.memory.Load(p, size);
    ghost var syms2 := h.memory.syms;
    GrownSyms(syms1, cells[p..p + size], syms2, x);
    OkReqsStable(h.reqs, h.guards, syms1, syms2);
    LoadedWord(syms0, syms1, cells, p, size, syms2, x);
    NarrowStable(syms1, syms2, f.idx);
    var rest;
    r, rest := LoadFrom(h, f, off, size, i + 1);
    v := None;
    if !r.Ok? {
      return;
    }
    ghost var syms3 := h.memory.syms;
    TestStable(syms1, syms2, f.idx, f.offsets[i], eq);
    TestStable(syms2, syms3, f.idx, f.offsets[i], eq);
    NarrowStable(syms2, syms3, x);
    NarrowStable(syms2, syms3, f.idx);
    WordStable(syms0, cells, p, size, syms2, syms3, x);
    RulesOutSlot(h.guards, f, off, size, |h.memory.mem|, i, syms2, reqs0, eq, reqs0, syms3, h.reqs);
    if rest.None? {
      ChosenOnly(syms0, cells, f, off, size, i, syms3, x);
      return r, Some(x);
    }
    LoadsEarlier(syms0, syms2, cells, f, off, size, i + 1, syms3, rest.value);
    var y := rest.value;
    if eq.IsSym() {
      y := h.Select(eq.s, x, rest.value);
    }
    ChosenSelect(syms0, cells, f, off, size, i, syms3, eq, x, rest.value, h.memory.syms, y);
    RulesOutStable(h.guards, f, off, size, |h.memory.mem|, i, reqs0, syms3, h.reqs, h.memory.syms);
    v := Some(y);
  }

  lemma GrownSyms(syms0: seq<Sym>, bytes: seq<Cell>, syms: seq<Sym>, v: V)
    requires Assembled(syms0, bytes, syms, v)
    ensures syms0 <= syms && OkSyms(syms)
  {
  }

  /** The address `a` holds. */
  ghost function Held(syms: seq<Sym>, a: V, off: nat, inp: Inputs): nat {
    Val(Valuation(syms, inp), a) + off
  }

  /** `v` is the word at the address held, wherever that is in bounds. */
  ghost predicate LoadsHeld(syms0: seq<Sym>, cells: seq<Cell>, a: V, off: nat, size: nat, syms: seq<Sym>, v: V) {
    forall inp :: Held(syms0, a, off, inp) + size <= |cells| ==>
      Val(Valuation(syms, inp), v) == WordAt(CellVals(Valuation(syms0, inp), cells), Held(syms0, a, off, inp), size)
  }

  /** Where the guards are taken, the new requirements say exactly that the address held is in bounds. */
  ghost predicate InBoundsOnly(guards: seq<Lit>, syms0: seq<Sym>, a: V, off: nat, size: nat, n: nat, reqs0: seq<Req>,
                               syms: seq<Sym>, reqs: seq<Req>) {
    forall inp ::
      var vals := Valuation(syms, inp);
      Taken(guards, vals) ==> (AllBind(reqs, |reqs0|, vals) <==> Held(syms0, a, off, inp) + size <= n)
  }

  // ----- the leaves of a select -----

  /** A pointer the selects of `a` can come to, taken or not: one that is no select. */
  ghost predicate IsLeaf(syms: seq<Sym>, a: V, l: V)
    decreases a.s
  {
    if Selects(syms, a) && syms[a.s].t.s < a.s && syms[a.s].e.s < a.s
    then IsLeaf(syms, syms[a.s].t, l) || IsLeaf(syms, syms[a.s].e, l)
    else l == a
  }

  /** Every leaf holds an address in bounds. */
  ghost predicate LeavesInBounds(syms: seq<Sym>, a: V, off: nat, size: nat, n: nat, inp: Inputs) {
    forall l :: IsLeaf(syms, a, l) ==> Held(syms, l, off, inp) + size <= n
  }

  /** A leaf can hold an address in bounds, as far as its index form says. */
  ghost predicate HasSlot(forms: Forms, l: V, off: nat, size: nat, n: nat) {
    if l.s == 0 then l.b + off + size <= n
    else l.s in forms ==> exists j :: 0 <= j < |forms[l.s].offsets| && Slot(forms[l.s], j, off) + size <= n
  }

  ghost predicate LeavesHaveSlots(syms: seq<Sym>, forms: Forms, a: V, off: nat, size: nat, n: nat) {
    forall l :: IsLeaf(syms, a, l) ==> HasSlot(forms, l, off, size, n)
  }

  /** A load through the leaf is supported: a constant, or, outside a look-ahead, a wire with an index form. */
  predicate Loads(syms: seq<Sym>, forms: Forms, probing: bool, l: V) {
    l.s == 0 || (!probing && l.s < |syms| && syms[l.s].Wire? && l.s in forms)
  }

  ghost predicate LeavesLoad(syms: seq<Sym>, forms: Forms, probing: bool, a: V) {
    forall l :: IsLeaf(syms, a, l) ==> Loads(syms, forms, probing, l)
  }

  /** Where the guards are taken, the new requirements say exactly that every leaf is in bounds. */
  ghost predicate LeavesBind(guards: seq<Lit>, syms0: seq<Sym>, a: V, off: nat, size: nat, n: nat, reqs0: seq<Req>,
                             syms: seq<Sym>, reqs: seq<Req>) {
    forall inp ::
      var vals := Valuation(syms, inp);
      Taken(guards, vals) ==> (AllBind(reqs, |reqs0|, vals) <==> LeavesInBounds(syms0, a, off, size, n, inp))
  }

  /** The address held is in bounds, but a leaf that is not taken is out of bounds. */
  ghost predicate Strays(syms: seq<Sym>, a: V, off: nat, size: nat, n: nat, inp: Inputs) {
    Held(syms, a, off, inp) + size <= n && !LeavesInBounds(syms, a, off, size, n, inp)
  }

  lemma LeavesOfSelect(syms: seq<Sym>, a: V, off: nat, size: nat, n: nat, inp: Inputs)
    requires Selects(syms, a) && syms[a.s].t.s < a.s && syms[a.s].e.s < a.s
    ensures LeavesInBounds(syms, a, off, size, n, inp)
       <==> LeavesInBounds(syms, syms[a.s].t, off, size, n, inp) && LeavesInBounds(syms, syms[a.s].e, off, size, n, inp)
  {
    hide Held;
    assert forall l :: IsLeaf(syms, a, l) <==> IsLeaf(syms, syms[a.s].t, l) || IsLeaf(syms, syms[a.s].e, l);
  }

  lemma LeafOfPlain(syms: seq<Sym>, a: V, off: nat, size: nat, n: nat, inp: Inputs)
    requires !Selects(syms, a)
    ensures LeavesInBounds(syms, a, off, size, n, inp) <==> Held(syms, a, off, inp) + size <= n
  {
    assert IsLeaf(syms, a, a);
  }

  lemma SlotsOfPlain(syms: seq<Sym>, forms: Forms, a: V, off: nat, size: nat, n: nat)
    requires !Selects(syms, a)
    ensures LeavesHaveSlots(syms, forms, a, off, size, n) <==> HasSlot(forms, a, off, size, n)
    ensures forall probing :: LeavesLoad(syms, forms, probing, a) <==> Loads(syms, forms, probing, a)
  {
    assert IsLeaf(syms, a, a);
  }

  lemma SlotsOfSelect(syms: seq<Sym>, forms: Forms, a: V, off: nat, size: nat, n: nat)
    requires Selects(syms, a) && syms[a.s].t.s < a.s && syms[a.s].e.s < a.s
    ensures LeavesHaveSlots(syms, forms, a, off, size, n)
       <==> LeavesHaveSlots(syms, forms, syms[a.s].t, off, size, n) && LeavesHaveSlots(syms, forms, syms[a.s].e, off,
         size, n)
    ensures forall probing :: (LeavesLoad(syms, forms, probing, a)
       <==> LeavesLoad(syms, forms, probing, syms[a.s].t) && LeavesLoad(syms, forms, probing, syms[a.s].e))
  {
    hide HasSlot, Loads;
    assert forall l :: IsLeaf(syms, a, l) <==> IsLeaf(syms, syms[a.s].t, l) || IsLeaf(syms, syms[a.s].e, l);
  }

  /** Leaves and what they hold stay as symbols are added. */
  lemma {:induction false} LeafStable(syms: seq<Sym>, more: seq<Sym>, a: V, l: V, off: nat, inp: Inputs)
    requires syms <= more && Narrow(syms, a)
    ensures IsLeaf(more, a, l) <==> IsLeaf(syms, a, l)
    ensures IsLeaf(syms, a, l) ==> Narrow(syms, l) && Held(more, l, off, inp) == Held(syms, l, off, inp)
    decreases a.s
  {
    if a.s != 0 {
      assert more[a.s] == syms[a.s];
    }
    if Selects(syms, a) {
      LeafStable(syms, more, syms[a.s].t, l, off, inp);
      LeafStable(syms, more, syms[a.s].e, l, off, inp);
    } else {
      NarrowOk(syms, a);
      Stable(syms, more, a, inp);
    }
  }

  lemma LeavesStable(syms: seq<Sym>, more: seq<Sym>, a: V, off: nat, size: nat, n: nat, inp: Inputs)
    requires syms <= more && Narrow(syms, a)
    ensures LeavesInBounds(more, a, off, size, n, inp) <==> LeavesInBounds(syms, a, off, size, n, inp)
  {
    hide Held, Narrow;
    forall l
      ensures IsLeaf(more, a, l) <==> IsLeaf(syms, a, l)
      ensures IsLeaf(syms, a, l) ==> Held(more, l, off, inp) == Held(syms, l, off, inp)
    {
      LeafStable(syms, more, a, l, off, inp);
    }
  }

  lemma SlotsStay(syms: seq<Sym>, more: seq<Sym>, forms: Forms, a: V, off: nat, size: nat, n: nat)
    requires syms <= more && Narrow(syms, a)
    ensures LeavesHaveSlots(more, forms, a, off, size, n) <==> LeavesHaveSlots(syms, forms, a, off, size, n)
    ensures forall probing :: LeavesLoad(more, forms, probing, a) <==> LeavesLoad(syms, forms, probing, a)
  {
    hide HasSlot, Narrow;
    forall l
      ensures IsLeaf(more, a, l) <==> IsLeaf(syms, a, l)
      ensures IsLeaf(syms, a, l) ==> forall probing :: Loads(more, forms, probing, l) <==>
        Loads(syms, forms, probing, l)
    {
      LeafStable(syms, more, a, l, 0, []);
      if IsLeaf(syms, a, l) {
        NarrowSym(syms, l);
      }
    }
  }

  lemma NarrowSym(syms: seq<Sym>, l: V)
    requires Narrow(syms, l)
    ensures l.s == 0 || l.s < |syms|
  {
  }

  /** The address held is held by a leaf. */
  lemma {:induction false} HeldByLeaf(syms: seq<Sym>, a: V, off: nat, inp: Inputs)
    requires OkSyms(syms) && Narrow(syms, a)
    ensures exists l :: IsLeaf(syms, a, l) && Held(syms, l, off, inp) == Held(syms, a, off, inp)
    decreases a.s
  {
    if Selects(syms, a) {
      SelectArms(syms, a);
      HeldSelect(syms, syms, syms, a, off, inp);
      HeldByLeaf(syms, syms[a.s].t, off, inp);
      HeldByLeaf(syms, syms[a.s].e, off, inp);
      var t :| IsLeaf(syms, syms[a.s].t, t) && Held(syms, t, off, inp) == Held(syms, syms[a.s].t, off, inp);
      var e :| IsLeaf(syms, syms[a.s].e, e) && Held(syms, e, off, inp) == Held(syms, syms[a.s].e, off, inp);
      assert IsLeaf(syms, a, t) && IsLeaf(syms, a, e);
    } else {
      assert IsLeaf(syms, a, a);
    }
  }

  /** With every leaf in bounds the address held is. */
  lemma LeavesHeld(syms: seq<Sym>, a: V, off: nat, size: nat, n: nat, inp: Inputs)
    requires OkSyms(syms) && Narrow(syms, a) && LeavesInBounds(syms, a, off, size, n, inp)
    ensures Held(syms, a, off, inp) + size <= n
  {
    HeldByLeaf(syms, a, off, inp);
  }

  /** A leaf without a slot in bounds is never in bounds. */
  lemma NoSlotNever(syms: seq<Sym>, forms: Forms, a: V, off: nat, size: nat, n: nat, inp: Inputs)
    requires OkForms(syms, forms) && !LeavesHaveSlots(syms, forms, a, off, size, n)
    ensures !LeavesInBounds(syms, a, off, size, n, inp)
  {
    var l :| IsLeaf(syms, a, l) && !HasSlot(forms, l, off, size, n);
    if l.s != 0 {
      FormNarrow(syms, forms, l);
      NeverInBounds(syms, l, forms[l.s], off, size, n);
    }
  }

  /** The requirements of an access are exact where no input strays, and only there. */
  lemma ExactUnlessStrays(guards: seq<Lit>, syms0: seq<Sym>, a: V, off: nat, size: nat, n: nat, reqs0: seq<Req>,
                          syms: seq<Sym>, reqs: seq<Req>)
    requires OkSyms(syms0) && Narrow(syms0, a) && LeavesBind(guards, syms0, a, off, size, n, reqs0, syms, reqs)
    ensures InBoundsOnly(guards, syms0, a, off, size, n, reqs0, syms, reqs)
       <==> forall inp :: Taken(guards, Valuation(syms, inp)) ==> !Strays(syms0, a, off, size, n, inp)
  {
    hide Valuation, OkSyms, Narrow, IsLeaf, Held;
    forall inp
      ensures LeavesInBounds(syms0, a, off, size, n, inp) ==> Held(syms0, a, off, inp) + size <= n
    {
      if LeavesInBounds(syms0, a, off, size, n, inp) {
        LeavesHeld(syms0, a, off, size, n, inp);
      }
    }
    if InBoundsOnly(guards, syms0, a, off, size, n, reqs0, syms, reqs) {
      forall inp | Taken(guards, Valuation(syms, inp))
        ensures !Strays(syms0, a, off, size, n, inp)
      {
      }
    }
    if forall inp :: Taken(guards, Valuation(syms, inp)) ==> !Strays(syms0, a, off, size, n, inp) {
      forall inp | Taken(guards, Valuation(syms, inp))
        ensures AllBind(reqs, |reqs0|, Valuation(syms, inp)) <==> Held(syms0, a, off, inp) + size <= n
      {
        assert !Strays(syms0, a, off, size, n, inp);
      }
    }
  }

  /** Outside selects no input strays. */
  lemma PlainNeverStrays(syms: seq<Sym>, a: V, off: nat, size: nat, n: nat, inp: Inputs)
    requires !Selects(syms, a)
    ensures !Strays(syms, a, off, size, n, inp)
  {
    LeafOfPlain(syms, a, off, size, n, inp);
  }

  /** Nor where every slot of every leaf is in bounds. */
  lemma {:induction false} InBoundsNeverStrays(syms: seq<Sym>, forms: Forms, a: V, off: nat, size: nat, n: nat,
                                               inp: Inputs)
    requires OkForms(syms, forms) && AllInBounds(syms, forms, a, off, size, n)
    requires forall l :: IsLeaf(syms, a, l) && l.s != 0 ==> l.s in forms
    ensures LeavesInBounds(syms, a, off, size, n, inp)
    decreases a.s
  {
    if Selects(syms, a) {
      InBoundsNeverStrays(syms, forms, syms[a.s].t, off, size, n, inp);
      InBoundsNeverStrays(syms, forms, syms[a.s].e, off, size, n, inp);
      LeavesOfSelect(syms, a, off, size, n, inp);
    } else {
      LeafOfPlain(syms, a, off, size, n, inp);
      if a.s != 0 {
        assert IsLeaf(syms, a, a);
        FormNarrow(syms, forms, a);
        HeldSlot(syms, a, forms[a.s], off, size, n, inp);
      }
    }
  }

  /** Every address `a` can hold is in bounds, as far as its selects and index forms say. */
  ghost predicate AllInBounds(syms: seq<Sym>, forms: Forms, a: V, off: nat, size: nat, n: nat)
    decreases a.s
  {
    if a.s == 0 then a.b + off + size <= n
    else
      && a.s < |syms|
      && if syms[a.s].Ite? then
           && syms[a.s].t.s < a.s && syms[a.s].e.s < a.s
           && AllInBounds(syms, forms, syms[a.s].t, off, size, n) && AllInBounds(syms, forms, syms[a.s].e, off, size, n)
         else a.s in forms ==> forall j :: 0 <= j < |forms[a.s].offsets| ==> Slot(forms[a.s], j, off) + size <= n
  }

  lemma {:induction false} AllInBoundsStable(syms: seq<Sym>, more: seq<Sym>, forms: Forms, a: V, off: nat, size: nat,
                                             n: nat)
    requires syms <= more && AllInBounds(syms, forms, a, off, size, n)
    ensures AllInBounds(more, forms, a, off, size, n)
    decreases a.s
  {
    if a.s != 0 && syms[a.s].Ite? {
      assert more[a.s] == syms[a.s];
      AllInBoundsStable(syms, more, forms, syms[a.s].t, off, size, n);
      AllInBoundsStable(syms, more, forms, syms[a.s].e, off, size, n);
    }
  }

  /** The index names one of the form's slots, the address held. */
  lemma HeldSlot(syms: seq<Sym>, a: V, f: Form, off: nat, size: nat, n: nat, inp: Inputs)
    requires IsForm(syms, a, f)
    ensures var x := Val(Valuation(syms, inp), f.idx);
      && (exists j :: 0 <= j < |f.offsets| && f.offsets[j] == x && Slot(f, j, off) == Held(syms, a, off, inp))
      && (Avoids(f, off, size, n, x, 0) <==> Held(syms, a, off, inp) + size <= n)
  {
    var x := Val(Valuation(syms, inp), f.idx);
    var j :| 0 <= j < |f.offsets| && f.offsets[j] == x;
    assert Slot(f, j, off) == Held(syms, a, off, inp);
    forall k | 0 <= k < |f.offsets| && f.offsets[k] == x
      ensures Slot(f, k, off) == Held(syms, a, off, inp)
    {
    }
  }

  /** What an indexed load means for the address held. */
  lemma IndexedLoad(guards: seq<Lit>, syms0: seq<Sym>, cells: seq<Cell>, a: V, f: Form, off: nat, size: nat,
                    reqs0: seq<Req>, syms: seq<Sym>, reqs: seq<Req>, v: V)
    requires syms0 <= syms && IsForm(syms0, a, f)
    requires RulesOut(guards, f, off, size, |cells|, 0, reqs0, syms, reqs)
      && LoadsSlots(syms0, cells, f, off, size, 0, syms, v)
    ensures LoadsHeld(syms0, cells, a, off, size, syms, v)
    ensures InBoundsOnly(guards, syms0, a, off, size, |cells|, reqs0, syms, reqs)
  {
    hide Valuation, Narrow;
    forall inp
      ensures Held(syms0, a, off, inp) + size <= |cells| ==>
                Val(Valuation(syms, inp), v) == WordAt(CellVals(Valuation(syms0, inp), cells), Held(syms0, a, off, inp),
                  size)
      ensures var vals := Valuation(syms, inp);
        Taken(guards, vals) ==> (AllBind(reqs, |reqs0|, vals) <==> Held(syms0, a, off, inp) + size <= |cells|)
    {
      HeldSlot(syms0, a, f, off, size, |cells|, inp);
      NarrowOk(syms0, f.idx);
      Stable(syms0, syms, f.idx, inp);
      var x := Val(Valuation(syms0, inp), f.idx);
      var j :| 0 <= j < |f.offsets| && f.offsets[j] == x && Slot(f, j, off) == Held(syms0, a, off, inp);
      if Held(syms0, a, off, inp) + size <= |cells| {
        assert Names(f, off, size, |cells|, x, 0, j);
      }
    }
  }

  /** All slots out of bounds: the access always traps. */
  lemma NeverInBounds(syms: seq<Sym>, a: V, f: Form, off: nat, size: nat, n: nat)
    requires IsForm(syms, a, f) && forall j :: 0 <= j < |f.offsets| ==> Slot(f, j, off) + size > n
    ensures forall inp :: Held(syms, a, off, inp) + size > n
  {
    forall inp
      ensures Held(syms, a, off, inp) + size > n
    {
      HeldSlot(syms, a, f, off, size, n, inp);
    }
  }

  /** A select of the words at two pointers is the word at the select of the pointers. */
  lemma SelectedLoad(guards: seq<Lit>, syms0: seq<Sym>, cells: seq<Cell>, a: V, off: nat, size: nat, reqs0: seq<Req>,
                     syms1: seq<Sym>, reqs1: seq<Req>, tv: V, syms2: seq<Sym>, reqs2: seq<Req>, ev: V, syms3: seq<Sym>,
                     v: V)
    requires OkSyms(syms0) && Narrow(syms0, a) && Selects(syms0, a)
    requires syms0 <= syms1 && syms1 <= syms2 && syms2 <= syms3 && OkCells(cells, |syms0|) && Narrow(syms1, tv)
    requires OkGuards(guards, syms1) && OkReqs(reqs1, syms1) && OkReqs(reqs2, syms2) && OkGuards(guards, syms2)
    requires Under(guards, reqs0, reqs1) && Under(guards, reqs1, reqs2)
    requires LoadsHeld(syms0, cells, syms0[a.s].t, off, size, syms1, tv)
    requires LeavesBind(guards, syms0, syms0[a.s].t, off, size, |cells|, reqs0, syms1, reqs1)
    requires LoadsHeld(syms1, cells, syms0[a.s].e, off, size, syms2, ev)
    requires LeavesBind(guards, syms1, syms0[a.s].e, off, size, |cells|, reqs1, syms2, reqs2)
    requires IsSelect(syms2, syms0[a.s].cond, tv, ev, syms3, v)
    ensures LoadsHeld(syms0, cells, a, off, size, syms3, v)
    ensures LeavesBind(guards, syms0, a, off, size, |cells|, reqs0, syms3, reqs2)
  {
    hide Valuation, OkReqs, OkGuards, WordAt, Narrow, OkSyms, Held, LeavesInBounds;
    var (t, e) := (syms0[a.s].t, syms0[a.s].e);
    SelectArms(syms0, a);
    NarrowOk(syms1, tv);
    forall inp
      ensures Held(syms0, a, off, inp) + size <= |cells| ==>
                Val(Valuation(syms3, inp), v) == WordAt(CellVals(Valuation(syms0, inp), cells),
                  Held(syms0, a, off, inp), size)
      ensures var vals := Valuation(syms3, inp);
        Taken(guards, vals) ==> (AllBind(reqs2, |reqs0|, vals) <==> LeavesInBounds(syms0, a, off, size, |cells|, inp))
    {
      HeldSelect(syms0, syms1, syms2, a, off, inp);
      LeavesOfSelect(syms0, a, off, size, |cells|, inp);
      LeavesStable(syms0, syms1, e, off, size, |cells|, inp);
      Stable(syms1, syms2, tv, inp);
      ValuationPrefix(syms0, syms1, inp);
      CellValsStable(Valuation(syms0, inp), Valuation(syms1, inp), cells);
      TakenStable(guards, syms1, syms3, inp);
      TakenStable(guards, syms2, syms3, inp);
      AllBindSplit(reqs0, reqs1, reqs2, Valuation(syms3, inp));
      AllBindStable(reqs1, |reqs0|, syms1, syms3, inp);
      AllBindStable(reqs2, |reqs1|, syms2, syms3, inp);
    }
  }

  /** A select holds the address one of its arms does. */
  lemma HeldSelect(syms0: seq<Sym>, syms1: seq<Sym>, syms2: seq<Sym>, a: V, off: nat, inp: Inputs)
    requires OkSyms(syms0) && Narrow(syms0, a) && Selects(syms0, a) && syms0 <= syms1 && syms1 <= syms2
    ensures var (cond, t, e) := (syms0[a.s].cond, syms0[a.s].t, syms0[a.s].e);
      && cond < |syms0|
      && Held(syms0, a, off, inp) == (if Valuation(syms2, inp)[cond] != 0 then Held(syms0, t, off, inp)
        else Held(syms0, e, off, inp))
      && Held(syms1, e, off, inp) == Held(syms0, e, off, inp)
  {
    SymWorth(syms0, inp, a.s);
    ValuationPrefix(syms0, syms1, inp);
    ValuationPrefix(syms1, syms2, inp);
    SelectArms(syms0, a);
    NarrowOk(syms0, syms0[a.s].e);
    Stable(syms0, syms1, syms0[a.s].e, inp);
  }

  /**
   * Load through any pointer. Where the guards are taken, the new requirements are exactly that every leaf of
   * the pointer's selects is in bounds, taken or not; and the load is refused exactly when some leaf can never
   * be. So the requirements are exactly that the access does not trap where no input strays, and only there
   * (`ExactUnlessStrays`): outside selects always, through a select not (`SelectRefused`, `SelectTooStrict`).
   */
  method LoadAny(h: Host, forms: Forms, a: V, off: nat, size: nat) returns (r: Status, v: V)
    requires h.Valid() && Narrow(h.memory.syms, a) && size <= 4 && OkForms(h.memory.syms, forms)
    requires forall s :: s in forms ==> forall j :: 0 <= j < |forms[s].offsets| ==> forms[s].offsets[j] < U32
    modifies h`reqs, h.memory`syms
    ensures h.Valid() && old(h.memory.syms) <= h.memory.syms && Under(h.guards, old(h.reqs), h.reqs)
    ensures r.Ok? ==>
      Narrow(h.memory.syms, v) && LoadsHeld(old(h.memory.syms), h.memory.Cells(), a, off, size, h.memory.syms, v)
    ensures r.Ok? ==>
      LeavesBind(h.guards, old(h.memory.syms), a, off, size, |h.memory.mem|, old(h.reqs), h.memory.syms, h.reqs)
    ensures r.Ok? <==>
      LeavesLoad(old(h.memory.syms), forms, h.probing, a)
      && LeavesHaveSlots(old(h.memory.syms), forms, a, off, size, |h.memory.mem|)
    ensures r.Failed? ==> !LeavesLoad(old(h.memory.syms), forms, h.probing, a)
    ensures r.Diverged? ==> !LeavesHaveSlots(old(h.memory.syms), forms, a, off, size, |h.memory.mem|)
    ensures h.probing ==> h.reqs == old(h.reqs)
    ensures AllInBounds(old(h.memory.syms), forms, a, off, size, |h.memory.mem|) ==>
      !r.Diverged? && (r.Ok? ==> h.reqs == old(h.reqs))
    decreases a.s
  {
    hide Narrow, Valuation, IsSelect, Assembled, Undo, Journaled, OkSyms, OkCells, RulesOut, LoadsSlots, Under,
      LoadsHeld, InBoundsOnly, LeavesBind, LeavesHaveSlots, LeavesLoad, IsForm;
    ghost var (syms0, reqs0, cells) := (h.memory.syms, h.reqs, h.memory.Cells());
    RulesOutNothing(h.guards, Form(0, [], C(0)), off, size, 0, syms0, reqs0);
    NarrowOk(syms0, a);
    if !a.IsSym() {
      SlotsOfPlain(syms0, forms, a, off, size, |cells|);
      if a.b + off + size > |h.memory.mem| {
        return Diverged, C(0);
      }
      v := h.memory.Load(a.b + off, size);
      GrownSyms(syms0, cells[a.b + off..a.b + off + size], h.memory.syms, v);
      OkReqsStable(h.reqs, h.guards, syms0, h.memory.syms);
      ConcreteLoad(h.guards, syms0, cells, a, off, size, h.memory.syms, v, reqs0);
      return Ok, v;
    }
    if h.memory.syms[a.s].Ite? {
      r, v := LoadSelect(h, forms, a, off, size);
      return;
    }
    SlotsOfPlain(syms0, forms, a, off, size, |cells|);
    if !h.memory.syms[a.s].Wire? || a.s !in forms || h.probing {
      return Failed, C(0);
    }
    var f := forms[a.s];
    FormNarrow(syms0, forms, a);
    var got;
    r, got := LoadFrom(h, f, off, size, 0);
    v := C(0);
    if r.Ok? {
      if got.None? {
        assert Slot(f, 0, off) + size > |cells|;
        return Diverged, C(0);
      }
      v := got.value;
      IndexedLoad(h.guards, syms0, cells, a, f, off, size, reqs0, h.memory.syms, h.reqs, v);
      PlainBinds(h.guards, syms0, a, off, size, |cells|, reqs0, h.memory.syms, h.reqs);
    }
  }

  /** Load through both arms of a select. */
  method LoadSelect(h: Host, forms: Forms, a: V, off: nat, size: nat) returns (r: Status, v: V)
    requires h.Valid() && Narrow(h.memory.syms, a) && size <= 4 && OkForms(h.memory.syms, forms)
    requires forall s :: s in forms ==> forall j :: 0 <= j < |forms[s].offsets| ==> forms[s].offsets[j] < U32
    requires Selects(h.memory.syms, a)
    modifies h`reqs, h.memory`syms
    ensures h.Valid() && old(h.memory.syms) <= h.memory.syms && Under(h.guards, old(h.reqs), h.reqs)
    ensures r.Ok? ==>
      Narrow(h.memory.syms, v) && LoadsHeld(old(h.memory.syms), h.memory.Cells(), a, off, size, h.memory.syms, v)
    ensures r.Ok? ==>
      LeavesBind(h.guards, old(h.memory.syms), a, off, size, |h.memory.mem|, old(h.reqs), h.memory.syms, h.reqs)
    ensures r.Ok? <==>
      LeavesLoad(old(h.memory.syms), forms, h.probing, a)
      && LeavesHaveSlots(old(h.memory.syms), forms, a, off, size, |h.memory.mem|)
    ensures r.Failed? ==> !LeavesLoad(old(h.memory.syms), forms, h.probing, a)
    ensures r.Diverged? ==> !LeavesHaveSlots(old(h.memory.syms), forms, a, off, size, |h.memory.mem|)
    ensures h.probing ==> h.reqs == old(h.reqs)
    ensures AllInBounds(old(h.memory.syms), forms, a, off, size, |h.memory.mem|) ==>
      !r.Diverged? && (r.Ok? ==> h.reqs == old(h.reqs))
    decreases a.s, 0
  {
    hide Valuation, IsSelect, Assembled, Undo, Journaled, OkSyms, OkCells, Under, LoadsHeld, InBoundsOnly, LeavesBind,
      LeavesHaveSlots, LeavesLoad, HasSlot, IsLeaf, IsForm;
    hide Narrow;
    ghost var (syms0, reqs0, cells) := (h.memory.syms, h.reqs, h.memory.Cells());
    var (cond, t, e) := (h.memory.syms[a.s].cond, h.memory.syms[a.s].t, h.memory.syms[a.s].e);
    if AllInBounds(syms0, forms, a, off, size, |cells|) {
      ArmsInBounds(syms0, forms, a, off, size, |cells|);
    }
    SelectArms(syms0, a);
    SlotsOfSelect(syms0, forms, a, off, size, |cells|);
    var tv, ev;
    r, tv := LoadAny(h, forms, t, off, size);
    v := C(0);
    ghost var (syms1, reqs1) := (h.memory.syms, h.reqs);
    if !r.Ok? {
      return;
    }
    FormsStable(syms0, syms1, forms);
    NarrowStable(syms0, syms1, e);
    SlotsStay(syms0, syms1, forms, e, off, size, |cells|);
    if AllInBounds(syms0, forms, e, off, size, |cells|) {
      AllInBoundsStable(syms0, syms1, forms, e, off, size, |cells|);
    }
    r, ev := LoadAny(h, forms, e, off, size);
    ghost var (syms2, reqs2) := (h.memory.syms, h.reqs);
    UnderTrans(h.guards, reqs0, reqs1, reqs2);
    if !r.Ok? {
      return;
    }
    NarrowStable(syms1, syms2, tv);
    v := h.Select(cond, tv, ev);
    SelectedLoad(h.guards, syms0, cells, a, off, size, reqs0, syms1, reqs1, tv, syms2, reqs2, ev, h.memory.syms, v);
  }

  /** A load through `c ? 0 : 100` in a memory of four bytes is refused, though with `c` set it reads address 0. */
  lemma SelectRefused()
    ensures var syms := [NoSym, Sym.Wire(1, Input(0)), Ite(1, C(0), C(100))];
      && OkSyms(syms) && Narrow(syms, V(0, 2))
      && !LeavesHaveSlots(syms, map[], V(0, 2), 0, 4, 4) && Strays(syms, V(0, 2), 0, 4, 4, [1])
  {
    var syms := [NoSym, Sym.Wire(1, Input(0)), Ite(1, C(0), C(100))];
    assert IsLeaf(syms, C(100), C(100)) && IsLeaf(syms, V(0, 2), C(100));
    SymWorth(syms, [1], 1);
    SymWorth(syms, [1], 2);
    assert Pow2(1) == 2;
    assert Held(syms, C(100), 0, [1]) == 100;
  }

  /** `c ? 0 : 100·x` for bits `c` and `x`: the second arm is a wire that holds 0 or 100. */
  function StrictSyms(): seq<Sym> {
    [NoSym, Sym.Wire(1, Input(0)), Sym.Wire(1, Input(1)), Sym.Wire(32, BinOf(Mul, V(0, 2), C(100))),
      Ite(1, C(0), V(0, 3))]
  }

  function StrictForms(): Forms {
    map[3 := Form(0, [0, 100], V(0, 3))]
  }

  /** A load through it in a memory of four bytes is accepted, and requires `x` to be 0 even where `c` is set and
      address 0 is read. */
  lemma SelectTooStrict()
    ensures OkSyms(StrictSyms()) && Narrow(StrictSyms(), V(0, 4)) && OkForms(StrictSyms(), StrictForms())
    ensures LeavesHaveSlots(StrictSyms(), StrictForms(), V(0, 4), 0, 4, 4)
    ensures LeavesLoad(StrictSyms(), StrictForms(), false, V(0, 4))
    ensures Strays(StrictSyms(), V(0, 4), 0, 4, 4, [1, 1])
  {
    var (syms, inp) := (StrictSyms(), [1, 1]);
    StrictOk();
    StrictWire(inp);
    SymWorth(syms, inp, 1);
    SymWorth(syms, inp, 2);
    SymWorth(syms, inp, 4);
    assert Pow2(1) == 2;
    hide Valuation, OkSyms, OkForms;
    assert Held(syms, V(0, 3), 0, inp) == 100;
    assert IsLeaf(syms, V(0, 4), V(0, 3));
  }

  lemma StrictOk()
    ensures OkSyms(StrictSyms()) && Narrow(StrictSyms(), V(0, 4)) && OkForms(StrictSyms(), StrictForms())
    ensures LeavesHaveSlots(StrictSyms(), StrictForms(), V(0, 4), 0, 4, 4)
    ensures LeavesLoad(StrictSyms(), StrictForms(), false, V(0, 4))
  {
    StrictForm();
    hide IsForm, Valuation;
    assert forall l :: IsLeaf(StrictSyms(), V(0, 4), l) <==> l == C(0) || l == V(0, 3);
    assert Slot(StrictForms()[3], 0, 0) == 0;
  }

  lemma StrictForm()
    ensures IsForm(StrictSyms(), V(0, 3), StrictForms()[3])
  {
    var (syms, f) := (StrictSyms(), StrictForms()[3]);
    hide Valuation;
    forall inp
      ensures var x := Val(Valuation(syms, inp), V(0, 3)); x < U32 && x in f.offsets
    {
      StrictWire(inp);
      assert f.offsets[0] == 0 && f.offsets[1] == 100;
    }
  }

  lemma StrictSymsOk()
    ensures OkSyms(StrictSyms())
  {
    hide Pow2;
    var syms := StrictSyms();
    assert OkSym(syms[1], 1) && OkSym(syms[2], 2);
    assert OkSym(syms[3], 3) && OkSym(syms[4], 4);
    assert IsCond(syms, syms[4].cond);
  }

  lemma StrictWire(inp: Inputs)
    ensures var vals := Valuation(StrictSyms(), inp);
      |vals| == 5 && vals[2] == (if 1 < |inp| then inp[1] else 0) % 2 && vals[3] == 100 * vals[2]
  {
    var syms := StrictSyms();
    StrictSymsOk();
    TwoTo32();
    assert Pow2(1) == 2;
    hide Valuation, Pow2, OkSyms;
    SymWorth(syms, inp, 2);
    SymWorth(syms, inp, 3);
    var vals := Valuation(syms, inp);
    assert vals[2] == DefVal(Input(1), vals, inp) % 2;
    assert vals[3] == BinVal(Mul, vals[2], 100) % U32;
  }

  predicate Selects(syms: seq<Sym>, a: V) {
    0 < a.s < |syms| && syms[a.s].Ite?
  }

  lemma ConstsInBounds(syms: seq<Sym>, forms: Forms, a: V, off: nat, size: nat, n: nat)
    requires ConcreteSelect(syms, a)
    ensures AllInBounds(syms, forms, a, off, size, n) <==>
      syms[a.s].t.b + off + size <= n && syms[a.s].e.b + off + size <= n
  {
  }

  lemma ConstsNeverStray(syms: seq<Sym>, forms: Forms, a: V, off: nat, size: nat, n: nat, inp: Inputs)
    requires ConcreteSelect(syms, a) && AllInBounds(syms, forms, a, off, size, n)
    ensures !Strays(syms, a, off, size, n, inp)
  {
    LeavesOfSelect(syms, a, off, size, n, inp);
    LeafOfPlain(syms, syms[a.s].t, off, size, n, inp);
    LeafOfPlain(syms, syms[a.s].e, off, size, n, inp);
  }

  lemma ArmsInBounds(syms: seq<Sym>, forms: Forms, a: V, off: nat, size: nat, n: nat)
    requires Selects(syms, a) && AllInBounds(syms, forms, a, off, size, n)
    ensures AllInBounds(syms, forms, syms[a.s].t, off, size, n) && AllInBounds(syms, forms, syms[a.s].e, off, size, n)
  {
  }

  lemma SelectArms(syms: seq<Sym>, a: V)
    requires OkSyms(syms) && Narrow(syms, a) && Selects(syms, a)
    ensures var x := syms[a.s];
      x.t.s < a.s && x.e.s < a.s && Narrow(syms, x.t) && Narrow(syms, x.e) && IsCond(syms, x.cond)
  {
  }

  lemma FormNarrow(syms: seq<Sym>, forms: Forms, a: V)
    requires OkForms(syms, forms) && a.IsSym() && a.s in forms
    ensures Narrow(syms, forms[a.s].idx) && IsForm(syms, a, forms[a.s]) && forms[a.s].offsets != []
  {
    assert IsForm(syms, V(0, a.s), forms[a.s]);
    assert Val(Valuation(syms, []), forms[a.s].idx) in forms[a.s].offsets;
    forall inp
      ensures Val(Valuation(syms, inp), a) == Val(Valuation(syms, inp), V(0, a.s))
    {
    }
  }

  lemma ConcreteLoad(guards: seq<Lit>, syms0: seq<Sym>, cells: seq<Cell>, a: V, off: nat, size: nat, syms: seq<Sym>,
                     v: V, reqs: seq<Req>)
    requires !a.IsSym() && a.b + off + size <= |cells| && size <= 4 && OkCells(cells, |syms0|)
    requires Assembled(syms0, cells[a.b + off..a.b + off + size], syms, v)
    ensures Narrow(syms, v) && LoadsHeld(syms0, cells, a, off, size, syms, v)
    ensures LeavesBind(guards, syms0, a, off, size, |cells|, reqs, syms, reqs)
  {
    LoadedWord(syms0, syms0, cells, a.b + off, size, syms, v);
    forall inp
      ensures LeavesInBounds(syms0, a, off, size, |cells|, inp)
    {
      LeafOfPlain(syms0, a, off, size, |cells|, inp);
    }
  }

  lemma PlainBinds(guards: seq<Lit>, syms0: seq<Sym>, a: V, off: nat, size: nat, n: nat, reqs0: seq<Req>,
                   syms: seq<Sym>, reqs: seq<Req>)
    requires !Selects(syms0, a) && InBoundsOnly(guards, syms0, a, off, size, n, reqs0, syms, reqs)
    ensures LeavesBind(guards, syms0, a, off, size, n, reqs0, syms, reqs)
  {
    hide Valuation, Held;
    forall inp
      ensures LeavesInBounds(syms0, a, off, size, n, inp) <==> Held(syms0, a, off, inp) + size <= n
    {
      LeafOfPlain(syms0, a, off, size, n, inp);
    }
  }

  // ----- stores -----

  /** The memory after storing `v` at the address held, if that is in bounds. */
  ghost function StoredAt(bytes: seq<Byte>, p: nat, size: nat, x: nat): seq<Byte> {
    if p + size <= |bytes| then Overwrite(bytes, p, ToBytes(x, size)) else bytes
  }

  /** Storing at whichever slot from `i` on the index names. */
  ghost predicate StoresSlots(syms0: seq<Sym>, cells0: seq<Cell>, f: Form, off: nat, size: nat, v: V, i: nat,
                              syms: seq<Sym>, cells: seq<Cell>) {
    && |cells| == |cells0|
    && forall inp ::
         var vals := Valuation(syms0, inp);
         && (forall j :: Names(f, off, size, |cells0|, Val(vals, f.idx), i, j) ==>
               CellVals(Valuation(syms, inp), cells) == StoredAt(CellVals(vals, cells0), Slot(f, j, off), size,
                 Val(vals, v)))
         && (NamesNone(f, off, size, |cells0|, Val(vals, f.idx), i) ==>
               CellVals(Valuation(syms, inp), cells) == CellVals(vals, cells0))
  }

  /** Storing `cond ? v : old` at `p` stores `v` there where `cond` holds, and changes nothing elsewhere. */
  ghost predicate StoresWhere(syms0: seq<Sym>, cells0: seq<Cell>, eq: V, p: nat, size: nat, v: V, syms: seq<Sym>,
                              cells: seq<Cell>) {
    && |cells| == |cells0|
    && forall inp ::
         var vals := Valuation(syms0, inp);
         CellVals(Valuation(syms, inp), cells)
           == if Val(vals, eq) != 0 then StoredAt(CellVals(vals, cells0), p, size, Val(vals, v))
             else CellVals(vals, cells0)
  }

  lemma StoredBack(bytes: seq<Byte>, p: nat, size: nat)
    requires p + size <= |bytes| && size <= 8
    ensures StoredAt(bytes, p, size, WordAt(bytes, p, size)) == bytes
  {
    var word := bytes[p..p + size];
    forall k | 0 <= k < size
      ensures ToBytes(FromBytes(word), size)[k] == word[k]
    {
      ByteAtFromBytes(word, k);
    }
    assert ToBytes(FromBytes(word), size) == word;
    assert Overwrite(bytes, p, word) == bytes;
  }

  /** Bytes of a value, written over cells. */
  lemma WrittenOver(vals: seq<nat>, cells: seq<Cell>, p: nat, with: seq<Cell>)
    requires p + |with| <= |cells|
    ensures CellVals(vals, Overwrite(cells, p, with)) == Overwrite(CellVals(vals, cells), p, CellVals(vals, with))
  {
  }

  lemma SelectStored(syms0: seq<Sym>, cells: seq<Cell>, eq: V, p: nat, size: nat, v: V, syms1: seq<Sym>, was: V,
                     syms2: seq<Sym>, x: V, after: seq<Cell>)
    requires OkSyms(syms2) && syms0 <= syms1 && syms1 <= syms2 && OkCells(cells, |syms0|) && Narrow(syms0, v)
      && Narrow(syms2, x)
    requires p + size <= |cells| && size <= 4 && eq.IsSym() && eq.s < |syms0|
    requires IsWord(syms0, cells, p, size, syms1, was) && IsSelect(syms1, eq.s, v, was, syms2, x)
    requires after == Overwrite(cells, p, BytesOf(syms2, x, size))
    ensures OkCells(after, |syms2|) && StoresWhere(syms0, cells, eq, p, size, v, syms2, after)
  {
    hide Narrow;
    NarrowOk(syms2, x);
    NarrowOk(syms0, v);
    BytesOfWorth(syms2, [], x, size);
    forall inp
      ensures var vals := Valuation(syms0, inp);
        CellVals(Valuation(syms2, inp), after)
          == if Val(vals, eq) != 0 then StoredAt(CellVals(vals, cells), p, size, Val(vals, v))
            else CellVals(vals, cells)
    {
      var vals := Valuation(syms0, inp);
      BytesOfWorth(syms2, inp, x, size);
      WrittenOver(Valuation(syms2, inp), cells, p, BytesOf(syms2, x, size));
      ValuationPrefix(syms0, syms1, inp);
      ValuationPrefix(syms1, syms2, inp);
      CellValsStable(vals, Valuation(syms2, inp), cells);
      Stable(syms0, syms1, v, inp);
      StoredBack(CellVals(vals, cells), p, size);
    }
  }

  /** `cond ? v : old` at `p`. */
  method StoreWhere(h: Host, eq: V, p: nat, size: nat, v: V)
    requires h.Valid() && Narrow(h.memory.syms, v) && eq.IsSym() && IsCond(h.memory.syms, eq.s)
      && p + size <= |h.memory.mem| && size <= 4
    modifies h.memory`syms, h.memory`mem, h.memory`shadow, h.memory`gran, h.memory`journals
    ensures h.Valid() && old(h.memory.syms) <= h.memory.syms && |h.memory.mem| == old(|h.memory.mem|)
    ensures StoresWhere(old(h.memory.syms), old(h.memory.Cells()), eq, p, size, v, h.memory.syms, h.memory.Cells())
    ensures Journaled(old(h.memory.journals), old(h.memory.Cells()), h.memory.journals, h.memory.Cells())
  {
    hide Narrow, Valuation, IsSelect, Assembled, Undo, Journaled, OkSyms, StoresWhere, IsWord, ExactCounts;
    ghost var (syms0, cells) := (h.memory.syms, h.memory.Cells());
    var was := h.memory.Load(p, size);
    ghost var syms1 := h.memory.syms;
    GrownSyms(syms0, cells[p..p + size], syms1, was);
    OkReqsStable(h.reqs, h.guards, syms0, syms1);
    LoadedWord(syms0, syms0, cells, p, size, syms1, was);
    NarrowStable(syms0, syms1, v);
    var x := h.Select(eq.s, v, was);
    NarrowOk(h.memory.syms, x);
    ghost var syms2 := h.memory.syms;
    h.memory.Store(p, size, x);
    SelectStored(syms0, cells, eq, p, size, v, syms1, was, syms2, x, h.memory.Cells());
  }

  /** The slots from `i` on: requirements against those out of bounds, and stores where the index is theirs. */
  method StoreFrom(h: Host, f: Form, off: nat, size: nat, v: V, i: nat) returns (r: Status, any: bool)
    requires h.Valid() && Narrow(h.memory.syms, f.idx) && Narrow(h.memory.syms, v) && i <= |f.offsets| && size <= 4
    requires forall j :: 0 <= j < |f.offsets| ==> f.offsets[j] < U32
    modifies h`reqs, h.memory`syms, h.memory`mem, h.memory`shadow, h.memory`gran, h.memory`journals
    ensures h.Valid() && old(h.memory.syms) <= h.memory.syms && |h.memory.mem| == old(|h.memory.mem|)
    ensures !r.Diverged? && (r.Failed? ==> h.probing)
    ensures Under(h.guards, old(h.reqs), h.reqs)
    ensures Journaled(old(h.memory.journals), old(h.memory.Cells()), h.memory.journals, h.memory.Cells())
    ensures r.Ok? ==> RulesOut(h.guards, f, off, size, |h.memory.mem|, i, old(h.reqs), h.memory.syms, h.reqs)
    ensures r.Ok? ==>
      StoresSlots(old(h.memory.syms), old(h.memory.Cells()), f, off, size, v, i, h.memory.syms, h.memory.Cells())
    ensures r.Ok? ==> (any <==> exists j :: i <= j < |f.offsets| && Slot(f, j, off) + size <= |h.memory.mem|)
    decreases |f.offsets| - i
  {
    hide Narrow, Valuation, Undo, Journaled, OkSyms, OkCells, RulesOut, StoresSlots, StoresWhere, Under, ExactCounts;
    ghost var (syms0, reqs0, cells0, js0) := (h.memory.syms, h.reqs, h.memory.Cells(), h.memory.journals);
    RulesOutNothing(h.guards, f, off, size, |cells0|, syms0, reqs0);
    JournaledRefl(js0, cells0);
    any := false;
    if i == |f.offsets| {
      NothingStored(syms0, cells0, f, off, size, v, i);
      return Ok, false;
    }
    var eq;
    r, eq := IndexIs(h, f.idx, f.offsets[i]);
    if !r.Ok? {
      return;
    }
    ghost var syms1 := h.memory.syms;
    NarrowStable(syms0, syms1, f.idx);
    NarrowStable(syms0, syms1, v);
    var p := Slot(f, i, off);
    var inside := p + size <= |h.memory.mem|;
    if !inside {
      r := RuleOut(h, eq);
      if !r.Ok? {
        return;
      }
    } else if eq.IsSym() {
      StoreWhere(h, eq, p, size, v);
    }
    ghost var (syms2, reqs2, cells2, js2) := (h.memory.syms, h.reqs, h.memory.Cells(), h.memory.journals);
    TestStable(syms1, syms2, f.idx, f.offsets[i], eq);
    NarrowStable(syms1, syms2, f.idx);
    NarrowStable(syms1, syms2, v);
    OneSlotStored(syms0, syms1, cells0, f, off, size, v, i, eq, syms2, cells2);
    r, any := StoreFrom(h, f, off, size, v, i + 1);
    UnderTrans(h.guards, reqs0, reqs2, h.reqs);
    JournaledTrans(js0, cells0, js2, cells2, h.memory.journals, h.memory.Cells());
    any := any || inside;
    if r.Ok? {
      RulesOutSlot(h.guards, f, off, size, |cells0|, i, syms2, reqs0, eq, reqs2, h.memory.syms, h.reqs);
      LaterStored(syms0, cells0, f, off, size, v, i, syms2, cells2, h.memory.syms, h.memory.Cells());
    }
  }

  lemma NothingStored(syms: seq<Sym>, cells: seq<Cell>, f: Form, off: nat, size: nat, v: V, i: nat)
    requires i >= |f.offsets|
    ensures StoresSlots(syms, cells, f, off, size, v, i, syms, cells)
  {
  }

  /** After slot `i`: the store has happened exactly if the index is slot `i`'s, and that is in bounds. */
  ghost predicate StoredOne(syms0: seq<Sym>, cells0: seq<Cell>, f: Form, off: nat, size: nat, v: V, i: nat,
                            syms: seq<Sym>, cells: seq<Cell>)
    requires i < |f.offsets|
  {
    && |cells| == |cells0|
    && forall inp ::
         var vals := Valuation(syms0, inp);
         CellVals(Valuation(syms, inp), cells)
           == if f.offsets[i] == Val(vals, f.idx)
             then StoredAt(CellVals(vals, cells0), Slot(f, i, off), size, Val(vals, v))
              else CellVals(vals, cells0)
  }

  lemma OneSlotStored(syms0: seq<Sym>, syms1: seq<Sym>, cells0: seq<Cell>, f: Form, off: nat, size: nat, v: V, i: nat,
                      eq: V, syms2: seq<Sym>, cells2: seq<Cell>)
    requires syms0 <= syms1 && syms1 <= syms2 && i < |f.offsets| && Narrow(syms0, f.idx) && Narrow(syms0, v)
      && OkCells(cells0, |syms0|)
    requires Tests(syms1, f.idx, f.offsets[i], eq)
    requires if Slot(f, i, off) + size <= |cells0| && eq.IsSym()
      then StoresWhere(syms1, cells0, eq, Slot(f, i, off), size, v, syms2, cells2)
             else cells2 == cells0
    ensures StoredOne(syms0, cells0, f, off, size, v, i, syms2, cells2)
  {
    hide Narrow;
    forall inp
      ensures var vals := Valuation(syms0, inp);
        CellVals(Valuation(syms2, inp), cells2)
          == if f.offsets[i] == Val(vals, f.idx)
            then StoredAt(CellVals(vals, cells0), Slot(f, i, off), size, Val(vals, v))
             else CellVals(vals, cells0)
    {
      SlotsStable(syms0, syms1, cells0, f, inp);
      SlotsStable(syms0, syms2, cells0, f, inp);
      NarrowOk(syms0, v);
      Stable(syms0, syms1, v, inp);
      assert (Val(Valuation(syms1, inp), eq) != 0) == (Val(Valuation(syms1, inp), f.idx) == f.offsets[i]);
    }
  }

  /** Storing twice at the same place is storing once; a later slot with the same index is the same place. */
  lemma LaterStored(syms0: seq<Sym>, cells0: seq<Cell>, f: Form, off: nat, size: nat, v: V, i: nat, syms2: seq<Sym>,
                    cells2: seq<Cell>, syms: seq<Sym>, cells: seq<Cell>)
    requires syms0 <= syms2 && i < |f.offsets| && Narrow(syms0, f.idx) && Narrow(syms0, v) && |cells2| == |cells0|
    requires StoredOne(syms0, cells0, f, off, size, v, i, syms2, cells2)
    requires StoresSlots(syms2, cells2, f, off, size, v, i + 1, syms, cells)
    ensures StoresSlots(syms0, cells0, f, off, size, v, i, syms, cells)
  {
    hide Narrow, Valuation;
    forall inp
      ensures var vals := Valuation(syms0, inp);
         && (forall j :: Names(f, off, size, |cells0|, Val(vals, f.idx), i, j) ==>
               CellVals(Valuation(syms, inp), cells) == StoredAt(CellVals(vals, cells0), Slot(f, j, off), size,
                 Val(vals, v)))
         && (NamesNone(f, off, size, |cells0|, Val(vals, f.idx), i) ==>
               CellVals(Valuation(syms, inp), cells) == CellVals(vals, cells0))
    {
      NarrowOk(syms0, f.idx);
      NarrowOk(syms0, v);
      Stable(syms0, syms2, f.idx, inp);
      Stable(syms0, syms2, v, inp);
      LaterStoredAt(Valuation(syms0, inp), cells0, f, off, size, v, i, Valuation(syms2, inp), cells2,
        Valuation(syms, inp), cells);
    }
  }

  lemma LaterStoredAt(vals0: seq<nat>, cells0: seq<Cell>, f: Form, off: nat, size: nat, v: V, i: nat, vals2: seq<nat>,
                      cells2: seq<Cell>, vals: seq<nat>, cells: seq<Cell>)
    requires i < |f.offsets| && |cells2| == |cells0| && Val(vals2, f.idx) == Val(vals0, f.idx)
      && Val(vals2, v) == Val(vals0, v)
    requires CellVals(vals2, cells2)
      == if f.offsets[i] == Val(vals0, f.idx)
        then StoredAt(CellVals(vals0, cells0), Slot(f, i, off), size, Val(vals0, v))
         else CellVals(vals0, cells0)
    requires forall j :: Names(f, off, size, |cells2|, Val(vals2, f.idx), i + 1, j) ==>
               CellVals(vals, cells) == StoredAt(CellVals(vals2, cells2), Slot(f, j, off), size, Val(vals2, v))
    requires NamesNone(f, off, size, |cells2|, Val(vals2, f.idx), i + 1) ==>
      CellVals(vals, cells) == CellVals(vals2, cells2)
    ensures forall j :: Names(f, off, size, |cells0|, Val(vals0, f.idx), i, j) ==>
              CellVals(vals, cells) == StoredAt(CellVals(vals0, cells0), Slot(f, j, off), size, Val(vals0, v))
    ensures NamesNone(f, off, size, |cells0|, Val(vals0, f.idx), i) ==> CellVals(vals, cells) == CellVals(vals0, cells0)
  {
    var (x, b, y) := (Val(vals0, f.idx), CellVals(vals0, cells0), Val(vals0, v));
    forall j | Names(f, off, size, |cells0|, x, i, j)
      ensures CellVals(vals, cells) == StoredAt(b, Slot(f, j, off), size, y)
    {
      StoredTwice(b, Slot(f, j, off), size, y);
      if NamesNone(f, off, size, |cells2|, x, i + 1) {
        NamesHere(f, off, size, |cells0|, x, i, j);
      } else {
        var k :| Names(f, off, size, |cells2|, x, i + 1, k);
        assert Slot(f, k, off) == Slot(f, j, off);
        assert f.offsets[i] == x ==> Slot(f, i, off) == Slot(f, j, off);
      }
    }
    if NamesNone(f, off, size, |cells0|, x, i) {
      assert !Names(f, off, size, |cells0|, x, i, i);
      NamesLater(f, off, size, |cells0|, x, i);
    }
  }

  lemma NamesHere(f: Form, off: nat, size: nat, n: nat, x: nat, i: nat, j: nat)
    requires Names(f, off, size, n, x, i, j) && NamesNone(f, off, size, n, x, i + 1)
    ensures j == i
  {
    assert !Names(f, off, size, n, x, i + 1, j);
  }

  lemma NamesLater(f: Form, off: nat, size: nat, n: nat, x: nat, i: nat)
    requires NamesNone(f, off, size, n, x, i)
    ensures NamesNone(f, off, size, n, x, i + 1)
  {
    var later := i + 1;
    forall k: nat
      ensures !Names(f, off, size, n, x, later, k)
    {
      assert !Names(f, off, size, n, x, i, k);
    }
  }

  lemma StoredTwice(bytes: seq<Byte>, p: nat, size: nat, x: nat)
    ensures StoredAt(StoredAt(bytes, p, size, x), p, size, x) == StoredAt(bytes, p, size, x)
  {
  }

  /** After the access: `v` stored at the address held, if that is in bounds, and nothing else changed. */
  ghost predicate StoresHeld(syms0: seq<Sym>, cells0: seq<Cell>, a: V, off: nat, size: nat, v: V, syms: seq<Sym>,
                             cells: seq<Cell>) {
    && |cells| == |cells0|
    && forall inp ::
         var vals := Valuation(syms0, inp);
         CellVals(Valuation(syms, inp), cells) == StoredAt(CellVals(vals, cells0), Held(syms0, a, off, inp), size,
           Val(vals, v))
  }

  lemma IndexedStore(guards: seq<Lit>, syms0: seq<Sym>, cells0: seq<Cell>, a: V, f: Form, off: nat, size: nat, v: V,
                     reqs0: seq<Req>, syms: seq<Sym>, reqs: seq<Req>, cells: seq<Cell>)
    requires syms0 <= syms && IsForm(syms0, a, f)
    requires RulesOut(guards, f, off, size, |cells0|, 0, reqs0, syms, reqs)
    requires StoresSlots(syms0, cells0, f, off, size, v, 0, syms, cells)
    ensures StoresHeld(syms0, cells0, a, off, size, v, syms, cells)
    ensures InBoundsOnly(guards, syms0, a, off, size, |cells0|, reqs0, syms, reqs)
  {
    hide Valuation, Narrow, Overwrite;
    forall inp
      ensures var vals := Valuation(syms0, inp);
        CellVals(Valuation(syms, inp), cells) == StoredAt(CellVals(vals, cells0), Held(syms0, a, off, inp), size,
          Val(vals, v))
      ensures var vals := Valuation(syms, inp);
        Taken(guards, vals) ==> (AllBind(reqs, |reqs0|, vals) <==> Held(syms0, a, off, inp) + size <= |cells0|)
    {
      HeldSlot(syms0, a, f, off, size, |cells0|, inp);
      NarrowOk(syms0, f.idx);
      Stable(syms0, syms, f.idx, inp);
      var x := Val(Valuation(syms0, inp), f.idx);
      var j :| 0 <= j < |f.offsets| && f.offsets[j] == x && Slot(f, j, off) == Held(syms0, a, off, inp);
      if Held(syms0, a, off, inp) + size <= |cells0| {
        assert Names(f, off, size, |cells0|, x, 0, j);
      } else {
        OutOfBoundsNames(f, off, size, |cells0|, x, j);
      }
    }
  }

  lemma OutOfBoundsNames(f: Form, off: nat, size: nat, n: nat, x: nat, j: nat)
    requires j < |f.offsets| && f.offsets[j] == x && Slot(f, j, off) + size > n
    ensures NamesNone(f, off, size, n, x, 0)
  {
    var first := 0;
    forall k: nat
      ensures !Names(f, off, size, n, x, first, k)
    {
      if 0 <= k < |f.offsets| && f.offsets[k] == x {
        assert Slot(f, k, off) == Slot(f, j, off);
      }
    }
  }

  /** Every address a pointer can hold, if it is made of constants, index forms and selects. */
  function Candidates(syms: seq<Sym>, forms: Forms, a: V): Option<seq<nat>>
    decreases a.s
  {
    if a.s == 0 then Some([a.b % U32])
    else if a.s >= |syms| then None
    else
      match syms[a.s]
      case Ite(_, t, e) =>
        if t.s >= a.s || e.s >= a.s then None
        else (match (Candidates(syms, forms, t), Candidates(syms, forms, e))
              case (Some(x), Some(y)) => Some(Union(x, Union(y, [])))
              case _ => None)
      case Wire(_, _) =>
        if a.s !in forms then None
        else var f := forms[a.s];
          Some(seq(|f.offsets|, i requires 0 <= i < |f.offsets| => (f.base + f.offsets[i]) % U32))
      case _ => None
  }

  /** The candidates are all there are. */
  lemma {:induction false} CandidatesCover(syms: seq<Sym>, forms: Forms, a: V, inp: Inputs)
    requires OkSyms(syms) && Narrow(syms, a) && OkForms(syms, forms) && Candidates(syms, forms, a).Some?
    ensures Val(Valuation(syms, inp), a) in Candidates(syms, forms, a).value
    ensures forall x :: x in Candidates(syms, forms, a).value ==> x < U32
    decreases a.s
  {
    hide Valuation, OkSyms;
    if Selects(syms, a) {
      SelectArms(syms, a);
      HeldSelect(syms, syms, syms, a, 0, inp);
      CandidatesCover(syms, forms, syms[a.s].t, inp);
      CandidatesCover(syms, forms, syms[a.s].e, inp);
    } else if a.s != 0 {
      WireCover(syms, forms, a, inp);
    }
  }

  /** An address the leaf can hold, as far as its index form says. */
  ghost predicate CanHold(forms: Forms, l: V, x: nat) {
    if l.s == 0 then x == l.b % U32
    else if l.s !in forms then false
    else exists j :: 0 <= j < |forms[l.s].offsets| && x == (forms[l.s].base + forms[l.s].offsets[j]) % U32
  }

  /** There are candidates exactly if every leaf is a constant or has an index form; and they are no more than the
      leaves can hold. */
  lemma {:induction false} CandidatesAre(syms: seq<Sym>, forms: Forms, a: V)
    ensures Candidates(syms, forms, a).Some? <==> LeavesLoad(syms, forms, false, a)
    ensures Candidates(syms, forms, a).Some? ==>
      forall x :: x in Candidates(syms, forms, a).value <==> exists l :: IsLeaf(syms, a, l) && CanHold(forms, l, x)
    decreases a.s
  {
    if Selects(syms, a) && syms[a.s].t.s < a.s && syms[a.s].e.s < a.s {
      var (t, e) := (syms[a.s].t, syms[a.s].e);
      CandidatesAre(syms, forms, t);
      CandidatesAre(syms, forms, e);
      hide CanHold, Loads;
      assert forall l :: IsLeaf(syms, a, l) <==> IsLeaf(syms, t, l) || IsLeaf(syms, e, l);
    } else {
      assert IsLeaf(syms, a, a);
      LeafCandidates(syms, forms, a);
    }
  }

  lemma LeafCandidates(syms: seq<Sym>, forms: Forms, a: V)
    requires !(Selects(syms, a) && syms[a.s].t.s < a.s && syms[a.s].e.s < a.s)
    ensures Candidates(syms, forms, a).Some? <==> Loads(syms, forms, false, a)
    ensures Candidates(syms, forms, a).Some? ==>
      forall x :: x in Candidates(syms, forms, a).value <==> CanHold(forms, a, x)
  {
    if Candidates(syms, forms, a).Some? && a.s != 0 {
      var (f, xs) := (forms[a.s], Candidates(syms, forms, a).value);
      forall x
        ensures x in xs <==> CanHold(forms, a, x)
      {
        if x in xs {
          var j :| 0 <= j < |xs| && xs[j] == x;
          assert x == (f.base + f.offsets[j]) % U32;
        }
        if j :| 0 <= j < |f.offsets| && x == (f.base + f.offsets[j]) % U32 {
          assert xs[j] == x;
        }
      }
    }
  }

  lemma WireCover(syms: seq<Sym>, forms: Forms, a: V, inp: Inputs)
    requires OkForms(syms, forms) && a.s != 0 && a.s < |syms| && syms[a.s].Wire? && a.s in forms
    ensures Val(Valuation(syms, inp), a) in Candidates(syms, forms, a).value
    ensures forall x :: x in Candidates(syms, forms, a).value ==> x < U32
  {
    hide Valuation;
    var f := forms[a.s];
    assert IsForm(syms, V(0, a.s), f);
    assert Val(Valuation(syms, inp), a) == Val(Valuation(syms, inp), V(0, a.s));
    var i :| 0 <= i < |f.offsets| && f.offsets[i] == Val(Valuation(syms, inp), f.idx);
    assert Candidates(syms, forms, a).value[i] == Val(Valuation(syms, inp), a);
  }

  /** A select of pointers, compared with each address it can hold. */
  lemma CandidateForm(syms: seq<Sym>, forms: Forms, a: V)
    requires OkSyms(syms) && Narrow(syms, a) && OkForms(syms, forms) && Candidates(syms, forms, a).Some?
    ensures var c := Candidates(syms, forms, a).value; IsForm(syms, a, Form(0, c, a)) && forall j :: 0 <= j < |c| ==>
      c[j] < U32
  {
    hide Valuation, OkSyms, Candidates, OkForms;
    var f := Form(0, Candidates(syms, forms, a).value, a);
    CandidatesCover(syms, forms, a, []);
    forall j | 0 <= j < |f.offsets|
      ensures f.offsets[j] < U32
    {
      assert f.offsets[j] in f.offsets;
    }
    forall inp
      ensures var vals := Valuation(syms, inp);
        Val(vals, a) == (f.base + Val(vals, f.idx)) % U32 && Val(vals, f.idx) in f.offsets
    {
      CandidatesCover(syms, forms, a, inp);
      NarrowBound(syms, inp, a);
    }
  }

  predicate ConcreteSelect(syms: seq<Sym>, a: V) {
    Selects(syms, a) && !syms[a.s].t.IsSym() && !syms[a.s].e.IsSym()
  }

  /** What a store needs: the address held in bounds, or, through a select of two constants, both of them. */
  ghost predicate StoreFits(syms: seq<Sym>, a: V, off: nat, size: nat, n: nat, inp: Inputs) {
    if ConcreteSelect(syms, a) then LeavesInBounds(syms, a, off, size, n, inp) else Held(syms, a, off, inp) + size <= n
  }

  /** Both targets of a select of constants are in bounds, or it is never. */
  lemma ConcreteFits(syms: seq<Sym>, forms: Forms, a: V, off: nat, size: nat, n: nat, inp: Inputs)
    requires OkSyms(syms) && Narrow(syms, a) && ConcreteSelect(syms, a)
    ensures StoreFits(syms, a, off, size, n, inp) <==> AllInBounds(syms, forms, a, off, size, n)
    ensures StoreFits(syms, a, off, size, n, inp) ==> Held(syms, a, off, inp) + size <= n
  {
    SelectArms(syms, a);
    LeavesOfSelect(syms, a, off, size, n, inp);
    LeafOfPlain(syms, syms[a.s].t, off, size, n, inp);
    LeafOfPlain(syms, syms[a.s].e, off, size, n, inp);
    if LeavesInBounds(syms, a, off, size, n, inp) {
      LeavesHeld(syms, a, off, size, n, inp);
    }
  }

  lemma NeverFits(syms: seq<Sym>, forms: Forms, a: V, off: nat, size: nat, n: nat)
    requires OkSyms(syms) && Narrow(syms, a)
    requires if ConcreteSelect(syms, a) then !AllInBounds(syms, forms, a, off, size, n)
      else forall inp :: Held(syms, a, off, inp) + size > n
    ensures forall inp :: !StoreFits(syms, a, off, size, n, inp)
  {
    if ConcreteSelect(syms, a) {
      forall inp
        ensures !StoreFits(syms, a, off, size, n, inp)
      {
        ConcreteFits(syms, forms, a, off, size, n, inp);
      }
    }
  }

  /** A store through the pointer is supported: a constant, a select of two, or, outside a look-ahead, a wire with an
      index form or any pointer whose addresses are all known. */
  ghost predicate Stores(syms: seq<Sym>, forms: Forms, probing: bool, a: V) {
    || a.s == 0 || ConcreteSelect(syms, a)
    || (!probing && ((a.s < |syms| && syms[a.s].Wire? && a.s in forms) || Candidates(syms, forms, a).Some?))
  }

  /**
   * Store through any pointer. The new requirements are exactly that the address held is in bounds, and the
   * memory then has `v` there and is otherwise unchanged, however the candidate slots overlap. Only a select
   * of two constants is refused when either of them is out of bounds.
   */
  method StoreAny(h: Host, forms: Forms, a: V, off: nat, size: nat, v: V) returns (r: Status)
    requires h.Valid() && Narrow(h.memory.syms, a) && Narrow(h.memory.syms, v) && size <= 4
      && OkForms(h.memory.syms, forms)
    requires forall s :: s in forms ==> forall j :: 0 <= j < |forms[s].offsets| ==> forms[s].offsets[j] < U32
    modifies h`reqs, h.memory`syms, h.memory`mem, h.memory`shadow, h.memory`gran, h.memory`journals
    ensures h.Valid() && old(h.memory.syms) <= h.memory.syms && |h.memory.mem| == old(|h.memory.mem|)
    ensures Under(h.guards, old(h.reqs), h.reqs)
    ensures Journaled(old(h.memory.journals), old(h.memory.Cells()), h.memory.journals, h.memory.Cells())
    ensures r.Ok? ==>
      StoresHeld(old(h.memory.syms), old(h.memory.Cells()), a, off, size, v, h.memory.syms, h.memory.Cells())
    ensures r.Ok? ==>
      InBoundsOnly(h.guards, old(h.memory.syms), a, off, size, |h.memory.mem|, old(h.reqs), h.memory.syms, h.reqs)
    ensures r.Diverged? && !ConcreteSelect(old(h.memory.syms), a) ==>
              forall inp :: Held(old(h.memory.syms), a, off, inp) + size > |h.memory.mem|
    ensures ConcreteSelect(old(h.memory.syms), a) ==>
              (r.Ok? <==> AllInBounds(old(h.memory.syms), forms, a, off, size, |h.memory.mem|)) && !r.Failed?
    ensures r.Failed? <==> !Stores(old(h.memory.syms), forms, h.probing, a)
    ensures h.probing ==> h.reqs == old(h.reqs)
  {
    hide Narrow, Valuation, Undo, Journaled, OkSyms, OkCells, RulesOut, StoresSlots, StoresHeld, InBoundsOnly, Under,
      IsForm, ExactCounts;
    ghost var (syms0, reqs0, cells0) := (h.memory.syms, h.reqs, h.memory.Cells());
    NarrowOk(syms0, a);
    NarrowOk(syms0, v);
    RulesOutNothing(h.guards, Form(0, [], C(0)), off, size, 0, syms0, reqs0);
    JournaledRefl(h.memory.journals, cells0);
    if !a.IsSym() {
      if a.b + off + size > |h.memory.mem| {
        return Diverged;
      }
      h.memory.Store(a.b + off, size, v);
      ConcreteStore(h.guards, syms0, cells0, a, off, size, v, h.memory.Cells(), reqs0);
      return Ok;
    }
    if h.memory.syms[a.s].Ite? && !h.memory.syms[a.s].t.IsSym() && !h.memory.syms[a.s].e.IsSym() {
      r := StoreSelect(h, forms, a, off, size, v);
      return;
    }
    if h.probing {
      return Failed;
    }
    var f: Form;
    if h.memory.syms[a.s].Wire? && a.s in forms {
      f := forms[a.s];
      FormNarrow(syms0, forms, a);
    } else {
      var c := Candidates(h.memory.syms, forms, a);
      if c.None? {
        return Failed;
      }
      f := Form(0, c.value, a);
      CandidateForm(syms0, forms, a);
    }
    var any;
    r, any := StoreFrom(h, f, off, size, v, 0);
    if r.Ok? {
      if !any {
        NeverInBounds(syms0, a, f, off, size, |cells0|);
        return Diverged;
      }
      IndexedStore(h.guards, syms0, cells0, a, f, off, size, v, reqs0, h.memory.syms, h.reqs, h.memory.Cells());
    }
  }

  lemma ConcreteStore(guards: seq<Lit>, syms: seq<Sym>, cells0: seq<Cell>, a: V, off: nat, size: nat, v: V,
                      cells: seq<Cell>, reqs: seq<Req>)
    requires OkSyms(syms) && OkV(v, |syms|) && !a.IsSym() && a.b + off + size <= |cells0|
    requires cells == Overwrite(cells0, a.b + off, BytesOf(syms, v, size))
    ensures StoresHeld(syms, cells0, a, off, size, v, syms, cells)
    ensures InBoundsOnly(guards, syms, a, off, size, |cells0|, reqs, syms, reqs)
  {
    forall inp
      ensures var vals := Valuation(syms, inp);
        CellVals(vals, cells) == StoredAt(CellVals(vals, cells0), Held(syms, a, off, inp), size, Val(vals, v))
    {
      BytesOfWorth(syms, inp, v, size);
      WrittenOver(Valuation(syms, inp), cells0, a.b + off, BytesOf(syms, v, size));
    }
  }

  /** A store through a select of two constants, one after the other, each keeping its old bytes if it is not
      the one selected: overlapping targets see the first store. */
  method StoreSelect(h: Host, forms: Forms, a: V, off: nat, size: nat, v: V) returns (r: Status)
    requires h.Valid() && Narrow(h.memory.syms, a) && Narrow(h.memory.syms, v) && size <= 4
      && ConcreteSelect(h.memory.syms, a)
    modifies h.memory`syms, h.memory`mem, h.memory`shadow, h.memory`gran, h.memory`journals
    ensures h.Valid() && old(h.memory.syms) <= h.memory.syms && |h.memory.mem| == old(|h.memory.mem|)
    ensures Under(h.guards, old(h.reqs), h.reqs)
    ensures Journaled(old(h.memory.journals), old(h.memory.Cells()), h.memory.journals, h.memory.Cells())
    ensures r.Ok? ==>
      StoresHeld(old(h.memory.syms), old(h.memory.Cells()), a, off, size, v, h.memory.syms, h.memory.Cells())
    ensures r.Ok? ==>
      InBoundsOnly(h.guards, old(h.memory.syms), a, off, size, |h.memory.mem|, old(h.reqs), h.memory.syms, h.reqs)
    ensures (r.Ok? <==> AllInBounds(old(h.memory.syms), forms, a, off, size, |h.memory.mem|)) && !r.Failed?
  {
    hide Valuation, Undo, Journaled, OkSyms, OkCells, StoresHeld, InBoundsOnly, Under, ExactCounts, StoresWhere, Narrow,
      CellVals, AllInBounds, Asked, OkJournal, OkGuards, OkReqs, OkForms, StoresUnless, Overwrite, BytesOf, CellsOf;
    ghost var (syms0, reqs0, cells0, js0) := (h.memory.syms, h.reqs, h.memory.Cells(), h.memory.journals);
    var x := h.memory.syms[a.s];
    var (pt, pe) := (x.t.b + off, x.e.b + off);
    ConstsInBounds(syms0, forms, a, off, size, |h.memory.mem|);
    RulesOutNothing(h.guards, Form(0, [], C(0)), off, size, 0, syms0, reqs0);
    JournaledRefl(js0, cells0);
    SelectArms(syms0, a);
    NarrowOk(syms0, v);
    if pt + size > |h.memory.mem| || pe + size > |h.memory.mem| {
      return Diverged;
    }
    r := Ok;
    if pt == pe {
      h.memory.Store(pt, size, v);
      SameTarget(h.guards, syms0, cells0, a, off, size, v, h.memory.Cells(), reqs0);
      return;
    }
    StoreWhere(h, V(0, x.cond), pt, size, v);
    ghost var (syms1, cells1, js1) := (h.memory.syms, h.memory.Cells(), h.memory.journals);
    NarrowStable(syms0, syms1, v);
    StoreUnless(h, x.cond, pe, size, v);
    JournaledTrans(js0, cells0, js1, cells1, h.memory.journals, h.memory.Cells());
    BothTargets(h.guards, syms0, cells0, a, off, size, v, syms1, cells1, h.memory.syms, h.memory.Cells(), reqs0);
  }

  /** `cond ? old : v` at `p`. */
  method StoreUnless(h: Host, cond: nat, p: nat, size: nat, v: V)
    requires h.Valid() && Narrow(h.memory.syms, v) && IsCond(h.memory.syms, cond) && p + size <= |h.memory.mem|
      && size <= 4
    modifies h.memory`syms, h.memory`mem, h.memory`shadow, h.memory`gran, h.memory`journals
    ensures h.Valid() && old(h.memory.syms) <= h.memory.syms && |h.memory.mem| == old(|h.memory.mem|)
    ensures StoresUnless(old(h.memory.syms), old(h.memory.Cells()), cond, p, size, v, h.memory.syms, h.memory.Cells())
    ensures Journaled(old(h.memory.journals), old(h.memory.Cells()), h.memory.journals, h.memory.Cells())
  {
    hide Narrow, Valuation, IsSelect, Assembled, Undo, Journaled, OkSyms, StoresUnless, IsWord, ExactCounts;
    ghost var (syms0, cells) := (h.memory.syms, h.memory.Cells());
    var was := h.memory.Load(p, size);
    ghost var syms1 := h.memory.syms;
    GrownSyms(syms0, cells[p..p + size], syms1, was);
    OkReqsStable(h.reqs, h.guards, syms0, syms1);
    LoadedWord(syms0, syms0, cells, p, size, syms1, was);
    NarrowStable(syms0, syms1, v);
    var x := h.Select(cond, was, v);
    NarrowOk(h.memory.syms, x);
    ghost var syms2 := h.memory.syms;
    h.memory.Store(p, size, x);
    SelectKept(syms0, cells, cond, p, size, v, syms1, was, syms2, x, h.memory.Cells());
  }

  ghost predicate StoresUnless(syms0: seq<Sym>, cells0: seq<Cell>, cond: nat, p: nat, size: nat, v: V, syms: seq<Sym>,
                               cells: seq<Cell>) {
    && |cells| == |cells0|
    && forall inp ::
         var vals := Valuation(syms0, inp);
         CellVals(Valuation(syms, inp), cells)
           == if Val(vals, V(0, cond)) != 0 then CellVals(vals, cells0)
             else StoredAt(CellVals(vals, cells0), p, size, Val(vals, v))
  }

  lemma SelectKept(syms0: seq<Sym>, cells: seq<Cell>, cond: nat, p: nat, size: nat, v: V, syms1: seq<Sym>, was: V,
                   syms2: seq<Sym>, x: V, after: seq<Cell>)
    requires OkSyms(syms2) && syms0 <= syms1 && syms1 <= syms2 && OkCells(cells, |syms0|) && Narrow(syms0, v)
      && Narrow(syms2, x)
    requires p + size <= |cells| && size <= 4 && 0 < cond < |syms0|
    requires IsWord(syms0, cells, p, size, syms1, was) && IsSelect(syms1, cond, was, v, syms2, x)
    requires after == Overwrite(cells, p, BytesOf(syms2, x, size))
    ensures StoresUnless(syms0, cells, cond, p, size, v, syms2, after)
  {
    hide Narrow;
    NarrowOk(syms2, x);
    NarrowOk(syms0, v);
    forall inp
      ensures var vals := Valuation(syms0, inp);
        CellVals(Valuation(syms2, inp), after)
          == if Val(vals, V(0, cond)) != 0 then CellVals(vals, cells)
            else StoredAt(CellVals(vals, cells), p, size, Val(vals, v))
    {
      var vals := Valuation(syms0, inp);
      BytesOfWorth(syms2, inp, x, size);
      WrittenOver(Valuation(syms2, inp), cells, p, BytesOf(syms2, x, size));
      ValuationPrefix(syms0, syms1, inp);
      ValuationPrefix(syms1, syms2, inp);
      CellValsStable(vals, Valuation(syms2, inp), cells);
      Stable(syms0, syms1, v, inp);
      StoredBack(CellVals(vals, cells), p, size);
    }
  }

  lemma SameTarget(guards: seq<Lit>, syms: seq<Sym>, cells0: seq<Cell>, a: V, off: nat, size: nat, v: V,
                   cells: seq<Cell>, reqs: seq<Req>)
    requires OkSyms(syms) && Narrow(syms, a) && OkV(v, |syms|) && ConcreteSelect(syms, a)
    requires var x := syms[a.s];
      && x.t.b == x.e.b && x.t.b + off + size <= |cells0|
      && cells == Overwrite(cells0, x.t.b + off, BytesOf(syms, v, size))
    ensures StoresHeld(syms, cells0, a, off, size, v, syms, cells)
    ensures InBoundsOnly(guards, syms, a, off, size, |cells0|, reqs, syms, reqs)
  {
    forall inp
      ensures var vals := Valuation(syms, inp);
        CellVals(vals, cells) == StoredAt(CellVals(vals, cells0), Held(syms, a, off, inp), size, Val(vals, v))
      ensures Held(syms, a, off, inp) == syms[a.s].t.b + off
    {
      SymWorth(syms, inp, a.s);
      BytesOfWorth(syms, inp, v, size);
      WrittenOver(Valuation(syms, inp), cells0, syms[a.s].t.b + off, BytesOf(syms, v, size));
    }
  }

  lemma BothTargets(guards: seq<Lit>, syms0: seq<Sym>, cells0: seq<Cell>, a: V, off: nat, size: nat, v: V,
                    syms1: seq<Sym>, cells1: seq<Cell>, syms2: seq<Sym>, cells2: seq<Cell>, reqs: seq<Req>)
    requires OkSyms(syms0) && Narrow(syms0, a) && Narrow(syms0, v) && ConcreteSelect(syms0, a) && syms0 <= syms1
      && syms1 <= syms2
    requires var x := syms0[a.s];
      && x.t.b + off + size <= |cells0| && x.e.b + off + size <= |cells0|
      && StoresWhere(syms0, cells0, V(0, x.cond), x.t.b + off, size, v, syms1, cells1)
      && StoresUnless(syms1, cells1, x.cond, x.e.b + off, size, v, syms2, cells2)
    ensures StoresHeld(syms0, cells0, a, off, size, v, syms2, cells2)
    ensures InBoundsOnly(guards, syms0, a, off, size, |cells0|, reqs, syms2, reqs)
  {
    hide Overwrite, Valuation, OkSyms, OkCells, StoredAt;
    var x := syms0[a.s];
    SelectArms(syms0, a);
    NarrowOk(syms0, v);
    forall inp
      ensures var vals := Valuation(syms0, inp);
        CellVals(Valuation(syms2, inp), cells2) == StoredAt(CellVals(vals, cells0), Held(syms0, a, off, inp), size,
          Val(vals, v))
      ensures Held(syms0, a, off, inp) + size <= |cells0|
    {
      SymWorth(syms0, inp, a.s);
      ValuationPrefix(syms0, syms1, inp);
      Stable(syms0, syms1, v, inp);
    }
  }
}
