/**
 * The interpreter's byte memory: concrete bytes, the symbolic content some of them carry, a count of
 * symbolic bytes per 8-byte granule, and a journal of overwritten contents per open branch path.
 */
module SymMemory {
  import opened Words
  import opened SymValues

  /** The contents of a range before a write. */
  datatype JournalEntry = JournalEntry(addr: nat, before: seq<Cell>)

  function Overwrite<T>(s: seq<T>, at: nat, with: seq<T>): (r: seq<T>)
    requires at + |with| <= |s|
    ensures |r| == |s|
    ensures forall i :: 0 <= i < |s| ==> r[i] == if at <= i < at + |with| then with[i - at] else s[i]
  {
    s[..at] + with + s[at + |with|..]
  }

  // ----- bytes of values -----

  /** Byte `k` of `v`: concrete, or a reference to a symbol's byte. */
  function ByteOf(syms: seq<Sym>, v: V, k: nat): Cell {
    if !v.IsSym() then Cell(ByteAt(v.b, k), None)
    else if v.s >= |syms| then Cell(0, None)
    else match syms[v.s]
      case Wire(width, _) => if 8 * k >= width then Cell(0, None) else Cell(0, Some(SymByte(v.s, k)))
      case Bytes(cells) => if k < |cells| then cells[k] else Cell(0, None)
      case _ => Cell(0, Some(SymByte(v.s, k)))
  }

  lemma ByteOfOk(syms: seq<Sym>, v: V, k: nat)
    requires OkSyms(syms) && OkV(v, |syms|)
    ensures OkCell(ByteOf(syms, v, k), |syms|)
    ensures var sb := ByteOf(syms, v, k).sb; sb.Some? ==> v.IsSym() && sb.value.sym <= v.s
  {
  }

  lemma ByteOfWorth(syms: seq<Sym>, inp: Inputs, v: V, k: nat)
    requires OkSyms(syms) && OkV(v, |syms|)
    ensures CellVal(Valuation(syms, inp), ByteOf(syms, v, k)) == ByteAt(Val(Valuation(syms, inp), v), k)
  {
    if v.IsSym() {
      var vals := Valuation(syms, inp);
      SymWorth(syms, inp, v.s);
      SymBound(syms, inp, v.s);
      match syms[v.s] {
        case Wire(width, _) =>
          if 8 * k >= width {
            Pow2Mono(width, 8 * k);
            Pow256IsPow2(k);
            ByteAtHigh(vals[v.s], k, k);
          }
        case Bytes(cells) =>
          ByteAtFromBytes(CellVals(vals, cells), k);
        case _ =>
      }
    }
  }

  function BytesOf(syms: seq<Sym>, v: V, n: nat): (cells: seq<Cell>)
    ensures |cells| == n
    ensures forall k :: 0 <= k < n ==> cells[k] == ByteOf(syms, v, k)
  {
    seq(n, k requires 0 <= k => ByteOf(syms, v, k))
  }

  lemma BytesOfWorth(syms: seq<Sym>, inp: Inputs, v: V, n: nat)
    requires OkSyms(syms) && OkV(v, |syms|)
    ensures OkCells(BytesOf(syms, v, n), |syms|)
    ensures CellVals(Valuation(syms, inp), BytesOf(syms, v, n)) == ToBytes(Val(Valuation(syms, inp), v), n)
  {
    forall k | 0 <= k < n
      ensures OkCell(ByteOf(syms, v, k), |syms|)
      ensures CellVal(Valuation(syms, inp), ByteOf(syms, v, k)) == ByteAt(Val(Valuation(syms, inp), v), k)
    {
      ByteOfOk(syms, v, k);
      ByteOfWorth(syms, inp, v, k);
    }
  }

  lemma CellValsStable(vals: seq<nat>, more: seq<nat>, cells: seq<Cell>)
    requires vals <= more && OkCells(cells, |vals|)
    ensures CellVals(more, cells) == CellVals(vals, cells)
  {
  }

  // ----- granule counts -----

  function Has(shadow: map<nat, SymByte>, a: nat): nat { if a in shadow then 1 else 0 }

  /** How many bytes of granule `g` are symbolic. */
  function Count(shadow: map<nat, SymByte>, g: nat): nat {
    Has(shadow, 8 * g) + Has(shadow, 8 * g + 1) + Has(shadow, 8 * g + 2) + Has(shadow, 8 * g + 3)
    + Has(shadow, 8 * g + 4) + Has(shadow, 8 * g + 5) + Has(shadow, 8 * g + 6) + Has(shadow, 8 * g + 7)
  }

  lemma CountZero(shadow: map<nat, SymByte>, a: nat)
    requires Count(shadow, a / 8) == 0
    ensures a !in shadow
  {
    assert a == 8 * (a / 8) + a % 8;
  }

  lemma CountPositive(shadow: map<nat, SymByte>, g: nat) returns (a: nat)
    requires Count(shadow, g) != 0
    ensures a / 8 == g && a in shadow
  {
    a := if 8 * g in shadow then 8 * g
    else if 8 * g + 1 in shadow then 8 * g + 1
    else if 8 * g + 2 in shadow then 8 * g + 2
    else if 8 * g + 3 in shadow then 8 * g + 3
    else if 8 * g + 4 in shadow then 8 * g + 4
    else if 8 * g + 5 in shadow then 8 * g + 5
    else if 8 * g + 6 in shadow then 8 * g + 6
    else 8 * g + 7;
  }

  lemma CountChange(before: map<nat, SymByte>, after: map<nat, SymByte>, a: nat, g: nat)
    requires forall x :: x != a ==> (x in before <==> x in after)
    ensures Count(after, g) == if g == a / 8 then Count(before, g) - Has(before, a) + Has(after, a)
      else Count(before, g)
  {
    forall x: nat | x != a
      ensures Has(before, x) == Has(after, x)
    {
    }
    assert a == 8 * (a / 8) + a % 8;
    if g == a / 8 {
      var i := a % 8;
      assert i == 0 || i == 1 || i == 2 || i == 3 || i == 4 || i == 5 || i == 6 || i == 7;
    }
  }

  /** The symbolic bytes outside `[lo, hi)`. */
  function Without(shadow: map<nat, SymByte>, lo: nat, hi: nat): map<nat, SymByte> {
    map a | a in shadow && !(lo <= a < hi) :: shadow[a]
  }

  lemma WithoutConcat(shadow: map<nat, SymByte>, lo: nat, mid: nat, hi: nat)
    requires lo <= mid <= hi
    ensures Without(Without(shadow, lo, mid), mid, hi) == Without(shadow, lo, hi)
  {
  }

  lemma NoneInGranule(shadow: map<nat, SymByte>, g: nat, lo: nat, hi: nat)
    requires Count(shadow, g) == 0 && 8 * g <= lo && hi <= 8 * g + 8
    ensures Without(shadow, lo, hi) == shadow
  {
    forall a | a in shadow
      ensures !(lo <= a < hi)
    {
      if lo <= a < hi {
        assert a / 8 == g;
        CountZero(shadow, a);
      }
    }
  }

  // ----- journals -----

  ghost predicate OkEntry(e: JournalEntry, size: nat, n: nat) {
    e.addr + |e.before| <= size && OkCells(e.before, n)
  }

  ghost predicate OkJournal(j: seq<JournalEntry>, size: nat, n: nat) {
    forall i :: 0 <= i < |j| ==> OkEntry(j[i], size, n)
  }

  /** Put every entry's contents back, newest first. */
  ghost function Undo(j: seq<JournalEntry>, cells: seq<Cell>): (r: seq<Cell>)
    requires forall i :: 0 <= i < |j| ==> j[i].addr + |j[i].before| <= |cells|
    ensures |r| == |cells|
  {
    if j == [] then cells
    else
      var e := j[|j| - 1];
      Undo(j[..|j| - 1], Overwrite(cells, e.addr, e.before))
  }

  lemma {:induction false} UndoConcat(x: seq<JournalEntry>, y: seq<JournalEntry>, cells: seq<Cell>)
    requires forall i :: 0 <= i < |x| ==> x[i].addr + |x[i].before| <= |cells|
    requires forall i :: 0 <= i < |y| ==> y[i].addr + |y[i].before| <= |cells|
    ensures Undo(x + y, cells) == Undo(x, Undo(y, cells))
    decreases |y|
  {
    if y == [] {
      assert x + y == x;
    } else {
      var e := y[|y| - 1];
      assert (x + y)[..|x + y| - 1] == x + y[..|y| - 1];
      UndoConcat(x, y[..|y| - 1], Overwrite(cells, e.addr, e.before));
    }
  }

  predicate Touched(j: seq<JournalEntry>, a: nat) {
    exists i :: 0 <= i < |j| && j[i].addr <= a < j[i].addr + |j[i].before|
  }

  lemma {:induction false} UndoUntouched(j: seq<JournalEntry>, cells: seq<Cell>)
    requires forall i :: 0 <= i < |j| ==> j[i].addr + |j[i].before| <= |cells|
    ensures forall a :: 0 <= a < |cells| && !Touched(j, a) ==> Undo(j, cells)[a] == cells[a]
    decreases |j|
  {
    if j != [] {
      var (init, e) := (j[..|j| - 1], j[|j| - 1]);
      UndoUntouched(init, Overwrite(cells, e.addr, e.before));
      forall a | 0 <= a < |cells| && !Touched(j, a)
        ensures Undo(j, cells)[a] == cells[a]
      {
        assert !(j[|j| - 1].addr <= a < j[|j| - 1].addr + |j[|j| - 1].before|);
        if i :| 0 <= i < |init| && init[i].addr <= a < init[i].addr + |init[i].before| {
          assert j[i] == init[i];
        }
      }
    }
  }

  /** A path's final contents of every byte it wrote. */
  type Writes = seq<(nat, Cell)>

  ghost predicate OkWrites(writes: Writes, size: nat, n: nat) {
    forall i :: 0 <= i < |writes| ==> writes[i].0 < size && OkCell(writes[i].1, n)
  }

  ghost function Apply(writes: Writes, cells: seq<Cell>): (r: seq<Cell>)
    ensures |r| == |cells|
  {
    if writes == [] then cells
    else
      var (init, (a, c)) := (Apply(writes[..|writes| - 1], cells), writes[|writes| - 1]);
      if a < |cells| then init[a := c] else init
  }

  /** What the path last wrote at `a`. */
  function Lookup(writes: Writes, a: nat): Option<Cell> {
    if writes == [] then None
    else
      var (x, c) := writes[|writes| - 1];
      if x == a then Some(c) else Lookup(writes[..|writes| - 1], a)
  }

  lemma {:induction false} LookupApply(writes: Writes, a: nat, cells: seq<Cell>)
    requires a < |cells|
    ensures Apply(writes, cells)[a] == match Lookup(writes, a) { case Some(c) => c case None => cells[a] }
    ensures Lookup(writes, a).Some? ==> exists i :: 0 <= i < |writes| && writes[i] == (a, Lookup(writes, a).value)
    decreases |writes|
  {
    if writes != [] {
      var init := writes[..|writes| - 1];
      LookupApply(init, a, cells);
      if writes[|writes| - 1].0 == a {
        assert writes[|writes| - 1] == (a, Lookup(writes, a).value);
      } else if Lookup(init, a).Some? {
        var i :| 0 <= i < |init| && init[i] == (a, Lookup(writes, a).value);
        assert writes[i] == init[i];
      }
    }
  }

  function Overlay(writes: Writes, w: nat, saved: seq<Cell>): (r: seq<Cell>)
    ensures |r| == |saved|
  {
    seq(|saved|, i requires 0 <= i < |saved| =>
      match Lookup(writes, w + i) case Some(c) => c case None => saved[i])
  }

  lemma OverlayApplies(writes: Writes, w: nat, saved: seq<Cell>, cells: seq<Cell>)
    requires w + |saved| <= |cells| && saved == cells[w..w + |saved|]
    ensures Overlay(writes, w, saved) == Apply(writes, cells)[w..w + |saved|]
  {
    hide Apply, Lookup;
    var word := Apply(writes, cells)[w..w + |saved|];
    forall i | 0 <= i < |saved|
      ensures Overlay(writes, w, saved)[i] == word[i]
    {
      LookupApply(writes, w + i, cells);
      assert word[i] == Apply(writes, cells)[w + i];
    }
  }

  lemma OverlayOk(writes: Writes, w: nat, saved: seq<Cell>, size: nat, n: nat)
    requires OkWrites(writes, size, n) && OkCells(saved, n) && w + |saved| <= size
    ensures OkCells(Overlay(writes, w, saved), n)
  {
    forall i | 0 <= i < |saved|
      ensures OkCell(Overlay(writes, w, saved)[i], n)
    {
      LookupApply(writes, w + i, seq(size, _ => Cell(0, None)));
    }
  }

  lemma {:induction false} ApplyOk(writes: Writes, cells: seq<Cell>, n: nat)
    requires OkWrites(writes, |cells|, n) && OkCells(cells, n)
    ensures OkCells(Apply(writes, cells), n)
    decreases |writes|
  {
    if writes != [] {
      ApplyOk(writes[..|writes| - 1], cells, n);
    }
  }

  predicate TouchesWord(writes: Writes, w: nat) {
    exists i :: 0 <= i < |writes| && w <= writes[i].0 < w + 8
  }

  lemma ApplyUntouched(writes: Writes, cells: seq<Cell>, w: nat, a: nat)
    requires !TouchesWord(writes, w) && w <= a < w + 8 && a < |cells|
    ensures Apply(writes, cells)[a] == cells[a]
  {
    LookupApply(writes, a, cells);
  }

  /** The byte `c` is worth `tc` where `cond` holds and `ec` where not. */
  ghost predicate SelectsByte(syms0: seq<Sym>, cond: nat, tc: Cell, ec: Cell, syms1: seq<Sym>, c: Cell)
    requires cond < |syms0|
  {
    forall inp ::
      var vals := Valuation(syms0, inp);
      CellVal(Valuation(syms1, inp), c) == CellVal(vals, if vals[cond] != 0 then tc else ec)
  }

  ghost predicate Selects(syms0: seq<Sym>, cond: nat, tc: seq<Cell>, ec: seq<Cell>, syms1: seq<Sym>, cells: seq<Cell>,
                          lo: nat, hi: nat) {
    && |tc| == |ec| == |cells| && hi <= |cells| && cond < |syms0|
    && forall a :: lo <= a < hi ==> SelectsByte(syms0, cond, tc[a], ec[a], syms1, cells[a])
  }

  lemma SelectsStable(syms0: seq<Sym>, cond: nat, tc: Cell, ec: Cell, syms1: seq<Sym>, syms2: seq<Sym>, c: Cell)
    requires cond < |syms0| && syms1 <= syms2 && OkCell(c, |syms1|)
    requires SelectsByte(syms0, cond, tc, ec, syms1, c)
    ensures SelectsByte(syms0, cond, tc, ec, syms2, c)
  {
    forall inp
      ensures CellVal(Valuation(syms2, inp), c) == CellVal(Valuation(syms1, inp), c)
    {
      ValuationPrefix(syms1, syms2, inp);
    }
  }

  lemma SelectsSame(syms0: seq<Sym>, cond: nat, c: Cell, syms1: seq<Sym>)
    requires cond < |syms0| && syms0 <= syms1 && OkCell(c, |syms0|)
    ensures SelectsByte(syms0, cond, c, c, syms1, c)
  {
    forall inp
      ensures CellVal(Valuation(syms1, inp), c) == CellVal(Valuation(syms0, inp), c)
    {
      ValuationPrefix(syms0, syms1, inp);
    }
  }

  lemma SelectsSooner(syms0: seq<Sym>, syms1: seq<Sym>, cond: nat, tc: Cell, ec: Cell, syms2: seq<Sym>, c: Cell)
    requires cond < |syms0| && syms0 <= syms1 && OkCell(tc, |syms0|) && OkCell(ec, |syms0|)
    requires SelectsByte(syms1, cond, tc, ec, syms2, c)
    ensures SelectsByte(syms0, cond, tc, ec, syms2, c)
  {
    forall inp
      ensures var vals := Valuation(syms0, inp);
        CellVal(Valuation(syms2, inp), c) == CellVal(vals, if vals[cond] != 0 then tc else ec)
    {
      ValuationPrefix(syms0, syms1, inp);
    }
  }

  /** Byte `k` of a word is the select of the two words' bytes `k`. */
  lemma WordSelectsByte(syms0: seq<Sym>, inp: Inputs, cond: nat, tw: seq<Cell>, ew: seq<Cell>, k: nat, syms1: seq<Sym>,
                        tv: V, syms2: seq<Sym>, ev: V, syms3: seq<Sym>, v: V)
    requires OkSyms(syms0) && IsCond(syms0, cond) && k < |tw| == |ew|
    requires OkCells(ew, |syms0|)
    requires Assembled(syms0, tw, syms1, tv) && Assembled(syms1, ew, syms2, ev)
    requires OkSyms(syms3) && syms2 <= syms3 && OkV(v, |syms3|)
    requires IsSelect(syms2, cond, tv, ev, syms3, v)
    ensures var vals := Valuation(syms0, inp);
      CellVal(Valuation(syms3, inp), ByteOf(syms3, v, k)) == CellVal(vals, if vals[cond] != 0 then tw[k] else ew[k])
  {
    var (v0, v1, v2) := (Valuation(syms0, inp), Valuation(syms1, inp), Valuation(syms2, inp));
    ValuationPrefix(syms0, syms1, inp);
    ValuationPrefix(syms1, syms2, inp);
    ByteOfWorth(syms3, inp, v, k);
    if v0[cond] != 0 {
      assert Val(v2, tv) == Val(v1, tv);
      ByteAtFromBytes(CellVals(v0, tw), k);
    } else {
      CellValsStable(v0, v1, ew);
      ByteAtFromBytes(CellVals(v0, ew), k);
    }
  }

  lemma WordSelects(syms0: seq<Sym>, cond: nat, tc: seq<Cell>, ec: seq<Cell>, w: nat, size: nat, syms1: seq<Sym>, tv: V,
                    syms2: seq<Sym>, ev: V, syms3: seq<Sym>, v: V, cells: seq<Cell>)
    requires OkSyms(syms0) && IsCond(syms0, cond) && |tc| == |ec| == |cells| && w + size <= |cells|
    requires OkCells(tc, |syms0|) && OkCells(ec, |syms0|)
    requires Assembled(syms0, tc[w..w + size], syms1, tv) && Assembled(syms1, ec[w..w + size], syms2, ev)
    requires OkSyms(syms3) && syms2 <= syms3 && OkV(v, |syms3|)
    requires IsSelect(syms2, cond, tv, ev, syms3, v)
    requires cells[w..w + size] == BytesOf(syms3, v, size)
    ensures Selects(syms0, cond, tc, ec, syms3, cells, w, w + size)
  {
    hide Valuation, Narrow, OkSyms, IsSelect, Assembled;
    var (tw, ew) := (tc[w..w + size], ec[w..w + size]);
    forall a | w <= a < w + size
      ensures SelectsByte(syms0, cond, tc[a], ec[a], syms3, cells[a])
    {
      assert cells[a] == cells[w..w + size][a - w];
      forall inp
        ensures var vals := Valuation(syms0, inp);
          CellVal(Valuation(syms3, inp), cells[a]) == CellVal(vals, if vals[cond] != 0 then tc[a] else ec[a])
      {
        WordSelectsByte(syms0, inp, cond, tw, ew, a - w, syms1, tv, syms2, ev, syms3, v);
      }
    }
  }

  lemma SelectsUntouched(syms0: seq<Sym>, cond: nat, tw: Writes, ew: Writes, before: seq<Cell>, syms: seq<Sym>,
                         cells: seq<Cell>, w: nat, size: nat)
    requires |before| == |cells| && size <= 8 && w + size <= |cells| && OkCells(before, |syms0|) && syms0 <= syms
    requires !TouchesWord(tw, w) && !TouchesWord(ew, w)
    requires forall a :: w <= a < |cells| ==> cells[a] == before[a]
    requires Selects(syms0, cond, Apply(tw, before), Apply(ew, before), syms, cells, 0, w)
    ensures Selects(syms0, cond, Apply(tw, before), Apply(ew, before), syms, cells, 0, w + size)
  {
    forall a | w <= a < w + size
      ensures SelectsByte(syms0, cond, Apply(tw, before)[a], Apply(ew, before)[a], syms, cells[a])
    {
      ApplyUntouched(tw, before, w, a);
      ApplyUntouched(ew, before, w, a);
      SelectsSame(syms0, cond, before[a], syms);
    }
  }

  lemma SelectsMerged(syms0: seq<Sym>, cond: nat, tw: Writes, ew: Writes, before: seq<Cell>, syms1: seq<Sym>,
                      now: seq<Cell>, syms2: seq<Sym>, cells: seq<Cell>, w: nat, size: nat)
    requires |before| == |now| == |cells| && size <= 8 && w + size <= |cells|
    requires OkWrites(tw, |before|, |syms0|) && OkWrites(ew, |before|, |syms0|)
    requires OkCells(before, |syms0|) && OkCells(now, |syms1|) && syms0 <= syms1 <= syms2
    requires forall a :: w <= a < |cells| ==> now[a] == before[a]
    requires forall a :: 0 <= a < |cells| && !(w <= a < w + size) ==> cells[a] == now[a]
    requires Selects(syms0, cond, Apply(tw, before), Apply(ew, before), syms1, now, 0, w)
    requires Selects(syms1, cond, Apply(tw, now), Apply(ew, now), syms2, cells, w, w + size)
    ensures Selects(syms0, cond, Apply(tw, before), Apply(ew, before), syms2, cells, 0, w + size)
  {
    ApplyOk(tw, before, |syms0|);
    ApplyOk(ew, before, |syms0|);
    var (tc, ec) := (Apply(tw, before), Apply(ew, before));
    forall a | 0 <= a < w + size
      ensures SelectsByte(syms0, cond, tc[a], ec[a], syms2, cells[a])
    {
      if w <= a {
        LookupApply(tw, a, before);
        LookupApply(tw, a, now);
        LookupApply(ew, a, before);
        LookupApply(ew, a, now);
        SelectsSooner(syms0, syms1, cond, tc[a], ec[a], syms2, cells[a]);
      } else {
        SelectsStable(syms0, cond, tc[a], ec[a], syms1, syms2, cells[a]);
      }
    }
  }

  lemma JournaledRefl(js: seq<seq<JournalEntry>>, cells: seq<Cell>)
    ensures Journaled(js, cells, js, cells)
  {
    if js != [] {
      assert js[|js| - 1][|js[|js| - 1]|..] == [];
    }
  }

  /** From `(j0, c0)` to `(j1, c1)` only the innermost journal grew, by what takes `c1` back to `c0`. */
  ghost predicate Journaled(j0: seq<seq<JournalEntry>>, c0: seq<Cell>, j1: seq<seq<JournalEntry>>, c1: seq<Cell>) {
    && |j0| == |j1|
    && |c0| == |c1|
    && (|j0| > 0 ==>
          var n := |j0| - 1;
          && j0[..n] == j1[..n]
          && j0[n] <= j1[n]
          && (forall i :: |j0[n]| <= i < |j1[n]| ==> j1[n][i].addr + |j1[n][i].before| <= |c1|)
          && Undo(j1[n][|j0[n]|..], c1) == c0)
  }

  lemma JournaledTrans(j0: seq<seq<JournalEntry>>, c0: seq<Cell>, j1: seq<seq<JournalEntry>>, c1: seq<Cell>,
                       j2: seq<seq<JournalEntry>>, c2: seq<Cell>)
    requires Journaled(j0, c0, j1, c1) && Journaled(j1, c1, j2, c2)
    ensures Journaled(j0, c0, j2, c2)
  {
    if |j0| > 0 {
      var n := |j0| - 1;
      UndoLater(j0[n], c0, j1[n], c1, j2[n], c2);
      assert j0[..n] == j2[..n];
      hide Undo;
    }
  }

  /** One journal, grown twice. */
  lemma UndoLater(a: seq<JournalEntry>, c0: seq<Cell>, b: seq<JournalEntry>, c1: seq<Cell>, c: seq<JournalEntry>,
                  c2: seq<Cell>)
    requires a <= b <= c && |c0| == |c1| == |c2|
    requires (forall i :: |a| <= i < |b| ==> b[i].addr + |b[i].before| <= |c1|) && Undo(b[|a|..], c1) == c0
    requires (forall i :: |b| <= i < |c| ==> c[i].addr + |c[i].before| <= |c2|) && Undo(c[|b|..], c2) == c1
    ensures (forall i :: |a| <= i < |c| ==> c[i].addr + |c[i].before| <= |c2|) && Undo(c[|a|..], c2) == c0
  {
    hide Undo;
    var (x, y) := (b[|a|..], c[|b|..]);
    assert c[|a|..] == x + y;
    forall i | |a| <= i < |c|
      ensures c[i].addr + |c[i].before| <= |c2|
    {
      assert i < |b| ==> c[i] == b[i];
    }
    UndoConcat(x, y, c2);
  }

  function Noted(js: seq<seq<JournalEntry>>, e: JournalEntry): seq<seq<JournalEntry>> {
    if js == [] then [] else js[..|js| - 1] + [js[|js| - 1] + [e]]
  }

  /** A write after its range was journaled is one that the journal undoes. */
  lemma JournaledWrite(js: seq<seq<JournalEntry>>, cells: seq<Cell>, addr: nat, bytes: seq<Cell>)
    requires addr + |bytes| <= |cells|
    ensures Journaled(js, cells, Noted(js, JournalEntry(addr, cells[addr..addr + |bytes|])),
      Overwrite(cells, addr, bytes))
  {
    if js != [] {
      var e := JournalEntry(addr, cells[addr..addr + |bytes|]);
      var n := |js| - 1;
      var after := Overwrite(cells, addr, bytes);
      assert Noted(js, e)[n][|js[n]|..] == [e];
      assert [e][..0] == [];
      assert Undo([e], after) == Undo([], Overwrite(after, addr, e.before)) == cells;
    }
  }

  lemma JournaledByte(js: seq<seq<JournalEntry>>, cells: seq<Cell>, a: nat, c: Cell)
    requires a < |cells|
    ensures Journaled(js, cells, Noted(js, JournalEntry(a, cells[a..a + 1])), cells[a := c])
  {
    JournaledWrite(js, cells, a, [c]);
    assert Overwrite(cells, a, [c]) == cells[a := c];
  }

  /** `v` is worth `t` where `cond` holds and `e` where not. */
  ghost predicate IsSelect(syms0: seq<Sym>, cond: nat, t: V, e: V, syms1: seq<Sym>, v: V) {
    && cond < |syms0|
    && forall inp ::
         var vals := Valuation(syms0, inp);
         Val(Valuation(syms1, inp), v) == if vals[cond] != 0 then Val(vals, t) else Val(vals, e)
  }

  // ----- assembling bytes into values -----

  /** `v`, over the grown table `syms1`, is worth the little-endian number in `bytes`. */
  ghost predicate Assembled(syms0: seq<Sym>, bytes: seq<Cell>, syms1: seq<Sym>, v: V) {
    && OkCells(bytes, |syms0|)
    && OkSyms(syms1) && syms0 <= syms1 && OkV(v, |syms1|)
    && (|bytes| <= 4 ==> Narrow(syms1, v))
    && forall inp :: Val(Valuation(syms1, inp), v) == FromBytes(CellVals(Valuation(syms0, inp), bytes))
  }

  function FirstSym(bytes: seq<Cell>): (r: Option<SymByte>)
    ensures r.Some? ==> exists i :: 0 <= i < |bytes| && bytes[i].sb == r
    ensures r.None? ==> forall i :: 0 <= i < |bytes| ==> bytes[i].sb.None?
  {
    if bytes == [] then None
    else if bytes[0].sb.Some? then bytes[0].sb
    else FirstSym(bytes[1..])
  }

  function FirstIte(syms: seq<Sym>, bytes: seq<Cell>): (r: Option<nat>)
    requires OkCells(bytes, |syms|)
    ensures r.Some? ==> 0 < r.value < |syms| && syms[r.value].Ite?
    ensures r.Some? ==> exists i :: 0 <= i < |bytes| && bytes[i].sb.Some? && bytes[i].sb.value.sym == r.value
    ensures r.None? ==> forall i :: 0 <= i < |bytes| && bytes[i].sb.Some? ==> !syms[bytes[i].sb.value.sym].Ite?
  {
    if bytes == [] then None
    else if bytes[0].sb.Some? && syms[bytes[0].sb.value.sym].Ite? then Some(bytes[0].sb.value.sym)
    else FirstIte(syms, bytes[1..])
  }

  function SymOf(c: Cell): nat { if c.sb.Some? then c.sb.value.sym else 0 }

  function SymSum(bytes: seq<Cell>): nat {
    if bytes == [] then 0 else SymOf(bytes[0]) + SymSum(bytes[1..])
  }

  function Unsym(bytes: seq<Cell>): seq<Byte> { seq(|bytes|, i requires 0 <= i < |bytes| => bytes[i].byte) }

  /** `bytes` with those of the select `s` replaced by the bytes of its arm `x`. */
  function ArmBytes(syms: seq<Sym>, bytes: seq<Cell>, s: nat, x: V): seq<Cell> {
    seq(|bytes|, i requires 0 <= i < |bytes| =>
      if bytes[i].sb.Some? && bytes[i].sb.value.sym == s then ByteOf(syms, x, bytes[i].sb.value.k) else bytes[i])
  }

  /** Byte 0 first, every byte of the wire `first.sym` in place, nothing else nonzero. */
  predicate OneWire(syms: seq<Sym>, bytes: seq<Cell>, first: SymByte)
    requires 0 < first.sym < |syms|
  {
    && first.k == 0
    && syms[first.sym].Wire?
    && (forall i :: 0 <= i < |bytes| ==>
          if bytes[i].sb.Some? then bytes[i].sb.value == SymByte(first.sym, i) else bytes[i].byte == 0)
    && var need := (syms[first.sym].width + 7) / 8;
       |bytes| >= need && forall i :: 0 <= i < need ==> bytes[i].sb.Some?
  }

  lemma {:induction false} SymSumLess(bytes: seq<Cell>, arm: seq<Cell>)
    requires |bytes| == |arm|
    requires forall i :: 0 <= i < |bytes| ==> SymOf(arm[i]) <= SymOf(bytes[i])
    ensures SymSum(arm) <= SymSum(bytes)
    ensures (exists i :: 0 <= i < |bytes| && SymOf(arm[i]) < SymOf(bytes[i])) ==> SymSum(arm) < SymSum(bytes)
  {
    if bytes != [] {
      SymSumLess(bytes[1..], arm[1..]);
      if i :| 0 <= i < |bytes| && SymOf(arm[i]) < SymOf(bytes[i]) {
        if i > 0 {
          assert SymOf(arm[1..][i - 1]) < SymOf(bytes[1..][i - 1]);
        }
      }
    }
  }

  /** Replacing a select by an arm strictly lowers the sum of the bytes' symbol ids. */
  lemma ArmOk(syms: seq<Sym>, bytes: seq<Cell>, s: nat, x: V)
    requires OkSyms(syms) && OkCells(bytes, |syms|) && 0 < s < |syms| && OkV(x, s)
    requires exists i :: 0 <= i < |bytes| && bytes[i].sb.Some? && bytes[i].sb.value.sym == s
    ensures OkCells(ArmBytes(syms, bytes, s, x), |syms|)
    ensures SymSum(ArmBytes(syms, bytes, s, x)) < SymSum(bytes)
  {
    var arm := ArmBytes(syms, bytes, s, x);
    forall i | 0 <= i < |bytes|
      ensures OkCell(arm[i], |syms|)
      ensures SymOf(arm[i]) <= SymOf(bytes[i])
      ensures SymOf(bytes[i]) == s ==> SymOf(arm[i]) < s
    {
      if SymOf(bytes[i]) == s {
        ByteOfOk(syms, x, bytes[i].sb.value.k);
      }
    }
    var i :| 0 <= i < |bytes| && bytes[i].sb.Some? && bytes[i].sb.value.sym == s;
    assert SymOf(arm[i]) < SymOf(bytes[i]);
    SymSumLess(bytes, arm);
  }

  lemma ArmWorth(syms: seq<Sym>, inp: Inputs, bytes: seq<Cell>, s: nat, x: V)
    requires OkSyms(syms) && OkCells(bytes, |syms|) && 0 < s < |syms| && OkV(x, |syms|)
    requires OkCells(ArmBytes(syms, bytes, s, x), |syms|)
    requires Val(Valuation(syms, inp), x) == Valuation(syms, inp)[s]
    ensures CellVals(Valuation(syms, inp), ArmBytes(syms, bytes, s, x)) == CellVals(Valuation(syms, inp), bytes)
  {
    var arm := ArmBytes(syms, bytes, s, x);
    forall i | 0 <= i < |bytes|
      ensures CellVal(Valuation(syms, inp), arm[i]) == CellVal(Valuation(syms, inp), bytes[i])
    {
      if bytes[i].sb.Some? && bytes[i].sb.value.sym == s {
        ByteOfWorth(syms, inp, x, bytes[i].sb.value.k);
      }
    }
  }

  lemma AssembledConcrete(syms: seq<Sym>, bytes: seq<Cell>)
    requires OkSyms(syms) && OkCells(bytes, |syms|) && |bytes| <= 8
    requires forall i :: 0 <= i < |bytes| ==> bytes[i].sb.None?
    ensures Assembled(syms, bytes, syms, C(FromBytes(Unsym(bytes))))
  {
    forall inp
      ensures CellVals(Valuation(syms, inp), bytes) == Unsym(bytes)
    {
    }
    FromBytesBound(Unsym(bytes));
    Pow256Mono(|bytes|, 8);
    if |bytes| <= 4 {
      Pow256Mono(|bytes|, 4);
      assert Pow256(4) == U32;
    }
  }

  lemma AssembledBytes(syms: seq<Sym>, bytes: seq<Cell>)
    requires OkSyms(syms) && OkCells(bytes, |syms|) && |bytes| <= 8
    ensures Assembled(syms, bytes, syms + [Bytes(bytes)], V(0, |syms|))
  {
    var more := syms + [Bytes(bytes)];
    assert more[..|more| - 1] == syms;
  }

  lemma AssembledWire(syms: seq<Sym>, bytes: seq<Cell>, first: SymByte)
    requires OkSyms(syms) && OkCells(bytes, |syms|) && 0 < first.sym < |syms| && OneWire(syms, bytes, first)
    ensures Assembled(syms, bytes, syms, V(0, first.sym))
  {
    var width := syms[first.sym].width;
    var need := (width + 7) / 8;
    forall inp
      ensures Valuation(syms, inp)[first.sym] == FromBytes(CellVals(Valuation(syms, inp), bytes))
    {
      var x := Valuation(syms, inp)[first.sym];
      SymBound(syms, inp, first.sym);
      Pow2Mono(width, 8 * need);
      Pow256IsPow2(need);
      Pow256Mono(need, |bytes|);
      forall i | 0 <= i < |bytes|
        ensures CellVals(Valuation(syms, inp), bytes)[i] == ByteAt(x, i)
      {
        if need <= i {
          ByteAtHigh(x, need, i);
        }
      }
      FromBytesIs(CellVals(Valuation(syms, inp), bytes), x);
    }
  }

  lemma AssembledSelect(syms0: seq<Sym>, bytes: seq<Cell>, s: nat, syms1: seq<Sym>, tv: V, syms2: seq<Sym>, ev: V,
                        syms3: seq<Sym>, v: V)
    requires OkSyms(syms0) && OkCells(bytes, |syms0|) && 0 < s < |syms0| && syms0[s].Ite?
    requires Assembled(syms0, ArmBytes(syms0, bytes, s, syms0[s].t), syms1, tv)
    requires OkCells(ArmBytes(syms0, bytes, s, syms0[s].e), |syms0|)
    requires Assembled(syms1, ArmBytes(syms0, bytes, s, syms0[s].e), syms2, ev)
    requires OkSyms(syms3) && syms2 <= syms3 && OkV(v, |syms3|)
    requires |bytes| <= 4 ==> Narrow(syms3, v)
    requires IsSelect(syms2, syms0[s].cond, tv, ev, syms3, v)
    ensures Assembled(syms0, bytes, syms3, v)
  {
    var Ite(cond, t, e) := syms0[s];
    forall inp
      ensures Val(Valuation(syms3, inp), v) == FromBytes(CellVals(Valuation(syms0, inp), bytes))
    {
      var (v0, v1, v2) := (Valuation(syms0, inp), Valuation(syms1, inp), Valuation(syms2, inp));
      ValuationPrefix(syms0, syms1, inp);
      ValuationPrefix(syms1, syms2, inp);
      SymWorth(syms0, inp, s);
      if v2[cond] != 0 {
        ArmWorth(syms0, inp, bytes, s, t);
        assert Val(v2, tv) == Val(v1, tv);
      } else {
        CellValsStable(v0, v1, ArmBytes(syms0, bytes, s, e));
        ArmWorth(syms0, inp, bytes, s, e);
      }
    }
  }

  // ----- the memory itself -----

  function CellsOf(mem: seq<Byte>, shadow: map<nat, SymByte>): (cells: seq<Cell>)
    ensures |cells| == |mem|
  {
    seq(|mem|, a requires 0 <= a < |mem| => Cell(mem[a], if a in shadow then Some(shadow[a]) else None))
  }

  /** The contents of `[addr, addr + size)`. */
  function Range(mem: seq<Byte>, shadow: map<nat, SymByte>, addr: nat, size: nat): (cells: seq<Cell>)
    requires addr + size <= |mem|
    ensures cells == CellsOf(mem, shadow)[addr..addr + size]
  {
    seq(size, i requires 0 <= i < size =>
      Cell(mem[addr + i], if addr + i in shadow then Some(shadow[addr + i]) else None))
  }

  lemma ConcreteRange(syms: seq<Sym>, mem: seq<Byte>, shadow: map<nat, SymByte>, addr: nat, size: nat)
    requires OkSyms(syms) && addr + size <= |mem| && size <= 8
    requires forall a :: addr <= a < addr + size ==> a !in shadow
    ensures Assembled(syms, CellsOf(mem, shadow)[addr..addr + size], syms, C(FromBytes(mem[addr..addr + size])))
  {
    var cells := CellsOf(mem, shadow)[addr..addr + size];
    assert Unsym(cells) == mem[addr..addr + size];
    AssembledConcrete(syms, cells);
  }

  ghost predicate ExactCounts(shadow: map<nat, SymByte>, gran: seq<nat>, size: nat) {
    && |gran| == size / 8 + 1
    && (forall a :: a in shadow ==> a < size)
    && forall g :: 0 <= g < |gran| ==> gran[g] == Count(shadow, g)
  }

  // ----- moving symbolic bytes -----

  /** The symbolic bytes of `[s, s + n)` by offset, in order. */
  function Moved(shadow: map<nat, SymByte>, s: nat, n: nat): (r: seq<(nat, SymByte)>)
    ensures forall k :: 0 <= k < |r| ==> r[k].0 < n
  {
    if n == 0 then []
    else
      var before := Moved(shadow, s, n - 1);
      if s + n - 1 in shadow then before + [(n - 1, shadow[s + n - 1])] else before
  }

  lemma {:induction false} NoneMoved(shadow: map<nat, SymByte>, s: nat, n: nat, m: nat)
    requires n <= m && forall a :: s + n <= a < s + m ==> a !in shadow
    ensures Moved(shadow, s, m) == Moved(shadow, s, n)
    decreases m
  {
    if n < m {
      NoneMoved(shadow, s, n, m - 1);
    }
  }

  lemma NoneHere(shadow: map<nat, SymByte>, g: nat, lo: nat, hi: nat)
    requires Count(shadow, g) == 0 && 8 * g <= lo && hi <= 8 * g + 8
    ensures forall a :: lo <= a < hi ==> a !in shadow
  {
    forall a | lo <= a < hi
      ensures a !in shadow
    {
      CountZero(shadow, a);
    }
  }

  /** The symbolic bytes set at their offsets from `d`. */
  function Placed(shadow: map<nat, SymByte>, d: nat, moved: seq<(nat, SymByte)>): map<nat, SymByte> {
    if moved == [] then shadow
    else var (o, sb) := moved[|moved| - 1]; Placed(shadow, d, moved[..|moved| - 1])[d + o := sb]
  }

  /** Byte `a` of `r` is the one of `from` at `b`. */
  ghost predicate SameByte(r: map<nat, SymByte>, a: nat, from: map<nat, SymByte>, b: nat) {
    (a in r <==> b in from) && (a in r ==> r[a] == from[b])
  }

  lemma {:induction false} PlacedMoved(base: map<nat, SymByte>, shadow: map<nat, SymByte>, d: nat, s: nat, n: nat,
                                       a: nat)
    ensures var r := Placed(base, d, Moved(shadow, s, n));
      if d <= a < d + n && s + (a - d) in shadow then SameByte(r, a, shadow, s + (a - d)) else SameByte(r, a, base, a)
  {
    if n > 0 {
      var (before, at) := (Moved(shadow, s, n - 1), s + n - 1);
      PlacedMoved(base, shadow, d, s, n - 1, a);
      if at in shadow {
        PlacedSnoc(base, d, before, n - 1, shadow[at]);
        hide Placed;
        assert Moved(shadow, s, n) == before + [(n - 1, shadow[at])];
      }
    }
  }

  lemma PlacedSnoc(base: map<nat, SymByte>, d: nat, moved: seq<(nat, SymByte)>, o: nat, sb: SymByte)
    ensures Placed(base, d, moved + [(o, sb)]) == Placed(base, d, moved)[d + o := sb]
  {
    assert (moved + [(o, sb)])[..|moved|] == moved;
  }

  /** One byte after the copy. */
  lemma CopiedByte(shadow0: map<nat, SymByte>, d: nat, s: nat, n: nat, a: nat)
    ensures var r := Placed(Without(shadow0, d, d + n), d, Moved(shadow0, s, n));
      var from := if d <= a < d + n then s + (a - d) else a;
      (a in r <==> from in shadow0) && (a in r ==> r[a] == shadow0[from])
  {
    PlacedMoved(Without(shadow0, d, d + n), shadow0, d, s, n, a);
  }

  lemma NothingCleared(shadow: map<nat, SymByte>, d: nat, n: nat)
    requires forall a :: d <= a < d + n ==> a !in shadow
    ensures Without(shadow, d, d + n) == shadow
  {
  }

  lemma NothingOver(cells: seq<Cell>, d: nat, s: nat)
    requires d <= |cells| && s <= |cells|
    ensures Overwrite(cells, d, cells[s..s + 0]) == cells
  {
  }

  lemma MovedOk(cells: seq<Cell>, d: nat, s: nat, n: nat, syms: nat)
    requires OkCells(cells, syms) && s + n <= |cells| && d + n <= |cells|
    ensures OkCells(Overwrite(cells, d, cells[s..s + n]), syms)
  {
  }

  lemma CopiedCells(mem0: seq<Byte>, shadow0: map<nat, SymByte>, mem: seq<Byte>, shadow: map<nat, SymByte>, d: nat,
                    s: nat, n: nat)
    requires s + n <= |mem0| && d + n <= |mem0| && mem == Overwrite(mem0, d, mem0[s..s + n])
    requires shadow == Placed(Without(shadow0, d, d + n), d, Moved(shadow0, s, n))
    ensures CellsOf(mem, shadow) == Overwrite(CellsOf(mem0, shadow0), d, CellsOf(mem0, shadow0)[s..s + n])
  {
    hide Placed, Moved, Without;
    var (cells0, cells) := (CellsOf(mem0, shadow0), CellsOf(mem, shadow));
    forall a | 0 <= a < |mem|
      ensures cells[a] == cells0[if d <= a < d + n then s + (a - d) else a]
    {
      CopiedByte(shadow0, d, s, n, a);
    }
    var after := Overwrite(cells0, d, cells0[s..s + n]);
    forall a | 0 <= a < |mem|
      ensures cells[a] == after[a]
    {
    }
  }

  class Memory {
    var mem: seq<Byte>
    var shadow: map<nat, SymByte>
    /** Per 8-byte granule, how many of its bytes are symbolic. */
    var gran: seq<nat>
    var syms: seq<Sym>
    /** Overwritten contents, one journal per open branch path. */
    var journals: seq<seq<JournalEntry>>
    /** The symbols that are divisions. */
    ghost var divs: set<nat>

    ghost function Cells(): seq<Cell>
      reads this
    {
      CellsOf(mem, shadow)
    }

    ghost predicate Valid()
      reads this
    {
      && OkSyms(syms)
      && OkCells(Cells(), |syms|)
      && ExactCounts(shadow, gran, |mem|)
      && (forall i :: 0 <= i < |journals| ==> OkJournal(journals[i], |mem|, |syms|))
      && forall i :: 0 <= i < |syms| && IsDivision(syms[i]) ==> i in divs
    }

    constructor (init: seq<Byte>)
      ensures Valid()
      ensures mem == init && shadow == map[] && syms == [NoSym] && journals == [] && divs == {}
    {
      divs := {};
      mem := init;
      shadow := map[];
      gran := seq(|init| / 8 + 1, _ => 0);
      syms := [NoSym];
      journals := [];
    }

    // ----- symbols -----

    method NewSym(x: Sym) returns (v: V)
      requires Valid() && OkSym(x, |syms|) && (x.Ite? ==> IsCond(syms, x.cond)) && !IsDivision(x)
      modifies this`syms
      ensures Valid()
      ensures syms == old(syms) + [x] && v == V(0, |old(syms)|)
    {
      syms := syms + [x];
      v := V(0, |syms| - 1);
    }

    method NewDivision(def: Def) returns (v: V)
      requires Valid() && def.DivOf? && OkDef(def, |syms|)
      modifies this`syms, this`divs
      ensures Valid()
      ensures syms == old(syms) + [Wire(32, def)] && v == V(0, |old(syms)|) && divs == old(divs) + {|old(syms)|}
    {
      divs := divs + {|syms|};
      syms := syms + [Wire(32, def)];
      v := V(0, |syms| - 1);
    }

    /** `cond ? t : e`, folding equal arms. */
    method NewIte(cond: nat, t: V, e: V) returns (v: V)
      requires Valid() && IsCond(syms, cond) && OkV(t, |syms|) && OkV(e, |syms|)
      modifies this`syms
      ensures Valid() && old(syms) <= syms && OkV(v, |syms|)
      ensures IsSelect(old(syms), cond, t, e, syms, v)
      ensures Narrow(old(syms), t) && Narrow(old(syms), e) ==> Narrow(syms, v)
      ensures (v == t == e && syms == old(syms)) || (v == V(0, |old(syms)|) && syms == old(syms) + [Ite(cond, t, e)])
    {
      if t == e {
        v := t;
      } else {
        v := NewSym(Ite(cond, t, e));
        forall inp: Inputs
          ensures Val(Valuation(syms, inp), v) == SymVal(Ite(cond, t, e), Valuation(old(syms), inp), inp)
        {
          assert syms[..|syms| - 1] == old(syms);
        }
        if Narrow(old(syms), t) && Narrow(old(syms), e) {
          NarrowStable(old(syms), syms, t);
          NarrowStable(old(syms), syms, e);
        }
      }
    }

    // ----- bytes -----

    method SetShadow(a: nat, sb: Option<SymByte>)
      requires ExactCounts(shadow, gran, |mem|) && a < |mem|
      modifies this`shadow, this`gran
      ensures ExactCounts(shadow, gran, |mem|)
      ensures shadow == if sb.Some? then old(shadow)[a := sb.value] else old(shadow) - {a}
    {
      var g := a / 8;
      ghost var before := shadow;
      match sb {
        case Some(b) =>
          var fresh_ := a !in shadow;
          shadow := shadow[a := b];
          if fresh_ {
            gran := gran[g := gran[g] + 1];
          }
        case None =>
          if gran[g] != 0 {
            if a in shadow {
              shadow := shadow - {a};
              gran := gran[g := gran[g] - 1];
            }
          } else {
            CountZero(shadow, a);
          }
          assert shadow == before - {a};
      }
      forall i | 0 <= i < |gran|
        ensures gran[i] == Count(shadow, i)
      {
        CountChange(before, shadow, a, i);
      }
    }

    method PutByte(a: nat, c: Cell)
      requires Valid() && a < |mem| && OkCell(c, |syms|)
      modifies this`mem, this`shadow, this`gran
      ensures Valid() && Cells() == old(Cells())[a := c]
    {
      mem := mem[a := c.byte];
      SetShadow(a, c.sb);
      assert Cells() == old(Cells())[a := c];
    }

    /** Whether a granule touched by `[addr, addr + size)` holds a symbolic byte. */
    method HasShadow(addr: nat, size: nat) returns (r: bool)
      requires ExactCounts(shadow, gran, |mem|) && addr + size <= |mem|
      ensures r <==> exists a :: a in shadow && addr / 8 <= a / 8 <= (addr + (if size == 0 then 1 else size) - 1) / 8
      ensures !r ==> forall a :: addr <= a < addr + size ==> a !in shadow
    {
      var (g0, g1) := (addr / 8, (addr + (if size == 0 then 1 else size) - 1) / 8);
      var g := g0;
      while g <= g1
        invariant g0 <= g <= g1 + 1
        invariant forall a :: a in shadow && g0 <= a / 8 <= g1 ==> g <= a / 8
      {
        if gran[g] != 0 {
          var a := CountPositive(shadow, g);
          return true;
        }
        forall a | a in shadow && g0 <= a / 8 <= g1
          ensures g + 1 <= a / 8
        {
          if a / 8 == g {
            CountZero(shadow, a);
          }
        }
        g := g + 1;
      }
      return false;
    }

    /** Clear the symbolic content of `[lo, hi)` byte by byte. */
    method ClearBytes(lo: nat, hi: nat)
      requires ExactCounts(shadow, gran, |mem|) && lo <= hi <= |mem|
      modifies this`shadow, this`gran
      ensures ExactCounts(shadow, gran, |mem|)
      ensures shadow == Without(old(shadow), lo, hi)
    {
      var a := lo;
      while a < hi
        invariant lo <= a <= hi
        invariant ExactCounts(shadow, gran, |mem|)
        invariant shadow == Without(old(shadow), lo, a)
      {
        SetShadow(a, None);
        a := a + 1;
      }
    }

    /** Clear the symbolic content of `[addr, addr + size)`, visiting only granules that have any. */
    method ClearShadow(addr: nat, size: nat)
      requires ExactCounts(shadow, gran, |mem|) && addr + size <= |mem|
      modifies this`shadow, this`gran
      ensures ExactCounts(shadow, gran, |mem|)
      ensures shadow == Without(old(shadow), addr, addr + size)
    {
      if size == 0 {
        return;
      }
      var g := addr / 8;
      var g1 := (addr + size - 1) / 8;
      ghost var done := addr;
      while g <= g1
        invariant addr / 8 <= g <= g1 + 1
        invariant addr <= done <= addr + size && (done == addr + size || (g <= g1 && done <= 8 * g + 8))
        invariant done == if g == addr / 8 then addr else if 8 * g < addr + size then 8 * g else addr + size
        invariant ExactCounts(shadow, gran, |mem|)
        invariant shadow == Without(old(shadow), addr, done)
      {
        var lo := if 8 * g < addr then addr else 8 * g;
        var hi := if 8 * g + 8 < addr + size then 8 * g + 8 else addr + size;
        if gran[g] == 0 {
          NoneInGranule(shadow, g, lo, hi);
        } else {
          ClearBytes(lo, hi);
        }
        WithoutConcat(old(shadow), addr, lo, hi);
        done := hi;
        g := g + 1;
      }
    }

    // ----- loads and stores -----

    /** Remember a range's contents in the innermost open path's journal. */
    method Journal(addr: nat, size: nat)
      requires Valid() && addr + size <= |mem|
      modifies this`journals
      ensures Valid()
      ensures journals == Noted(old(journals), JournalEntry(addr, Cells()[addr..addr + size]))
    {
      if |journals| > 0 {
        var n := |journals| - 1;
        var entry := JournalEntry(addr, Range(mem, shadow, addr, size));
        journals := journals[..n] + [journals[n] + [entry]];
      }
    }

    /** Write concrete bytes, clearing the range's symbolic content if it has any. */
    method WriteConcrete(addr: nat, bytes: seq<Byte>)
      requires Valid() && addr + |bytes| <= |mem|
      modifies this`mem, this`shadow, this`gran
      ensures Valid()
      ensures Cells() == Overwrite(old(Cells()), addr,
        seq(|bytes|, i requires 0 <= i < |bytes| => Cell(bytes[i], None)))
    {
      mem := Overwrite(mem, addr, bytes);
      var any := HasShadow(addr, |bytes|);
      if any {
        ClearShadow(addr, |bytes|);
      }
      assert Cells() == Overwrite(old(Cells()), addr, seq(|bytes|,
        i requires 0 <= i < |bytes| => Cell(bytes[i], None)));
    }

    method WriteCells(addr: nat, cells: seq<Cell>)
      requires Valid() && addr + |cells| <= |mem| && OkCells(cells, |syms|)
      modifies this`mem, this`shadow, this`gran
      ensures Valid() && Cells() == Overwrite(old(Cells()), addr, cells)
    {
      var i := 0;
      while i < |cells|
        invariant 0 <= i <= |cells| && |mem| == old(|mem|)
        invariant Valid() && Cells() == Overwrite(old(Cells()), addr, cells[..i])
      {
        PutByte(addr + i, cells[i]);
        i := i + 1;
      }
      assert cells[..|cells|] == cells;
    }

    /** Store `v`'s low `size` bytes at `addr`. */
    method Store(addr: nat, size: nat, v: V)
      requires Valid() && addr + size <= |mem| && OkV(v, |syms|)
      modifies this`mem, this`shadow, this`gran, this`journals
      ensures Valid()
      ensures Cells() == Overwrite(old(Cells()), addr, BytesOf(syms, v, size))
      ensures Journaled(old(journals), old(Cells()), journals, Cells())
    {
      hide ExactCounts, Undo, Journaled, Overwrite, CellsOf, OkSyms, Valuation, CellVals;
      Journal(addr, size);
      var bytes := BytesOf(syms, v, size);
      JournaledWrite(old(journals), Cells(), addr, bytes);
      if !v.IsSym() {
        WriteConcrete(addr, ToBytes(v.b, size));
        assert seq(size, i requires 0 <= i < size => Cell(ToBytes(v.b, size)[i], None)) == bytes;
      } else {
        BytesOfWorth(syms, [], v, size);
        WriteCells(addr, bytes);
      }
    }

    /** The symbolic bytes of `[s, s + n)` by offset, visiting only granules that have any. */
    method SymbolicBytes(s: nat, n: nat) returns (moved: seq<(nat, SymByte)>)
      requires ExactCounts(shadow, gran, |mem|) && s + n <= |mem| && n > 0
      ensures moved == Moved(shadow, s, n)
    {
      moved := [];
      var (g, g1) := (s / 8, (s + n - 1) / 8);
      ghost var done := s;
      while g <= g1
        invariant s / 8 <= g <= g1 + 1 && s <= done <= s + n && (done == s + n || g <= g1)
        invariant done == if g == s / 8 then s else if 8 * g < s + n then 8 * g else s + n
        invariant moved == Moved(shadow, s, done - s)
      {
        var lo := if 8 * g < s then s else 8 * g;
        var hi := if 8 * g + 8 < s + n then 8 * g + 8 else s + n;
        if gran[g] != 0 {
          moved := SymbolicIn(s, lo, hi, moved);
        } else {
          NoneHere(shadow, g, lo, hi);
          NoneMoved(shadow, s, lo - s, hi - s);
        }
        done := hi;
        g := g + 1;
      }
    }

    method SymbolicIn(s: nat, lo: nat, hi: nat, before: seq<(nat, SymByte)>) returns (moved: seq<(nat, SymByte)>)
      requires s <= lo <= hi && before == Moved(shadow, s, lo - s)
      ensures moved == Moved(shadow, s, hi - s)
    {
      moved := before;
      for a := lo to hi
        invariant moved == Moved(shadow, s, a - s)
      {
        if a in shadow {
          moved := moved + [(a - s, shadow[a])];
        }
      }
    }

    /** `memory.copy` from a concrete source: the ranges may overlap, the bytes move as they were. */
    method Copy(d: nat, s: nat, n: nat)
      requires Valid() && s + n <= |mem| && d + n <= |mem|
      modifies this`mem, this`shadow, this`gran, this`journals
      ensures Valid() && Cells() == Overwrite(old(Cells()), d, old(Cells())[s..s + n])
      ensures Journaled(old(journals), old(Cells()), journals, Cells())
    {
      hide ExactCounts, Undo, Journaled, OkSyms, Overwrite, CellsOf, Placed, Moved, Without, OkCells, OkJournal;
      ghost var cells0 := Cells();
      JournaledWrite(journals, cells0, d, cells0[s..s + n]);
      JournaledRefl(journals, cells0);
      if n == 0 {
        NothingOver(cells0, d, s);
        return;
      }
      Journal(d, n);
      MoveBytes(d, s, n);
      MovedOk(cells0, d, s, n, |syms|);
    }

    /** The bytes and symbolic bytes move; the granule counts stay exact. */
    method MoveBytes(d: nat, s: nat, n: nat)
      requires ExactCounts(shadow, gran, |mem|) && s + n <= |mem| && d + n <= |mem| && n > 0
      modifies this`mem, this`shadow, this`gran
      ensures ExactCounts(shadow, gran, |mem|) && |mem| == old(|mem|)
      ensures Cells() == Overwrite(old(Cells()), d, old(Cells())[s..s + n])
    {
      hide ExactCounts, CellsOf, Placed, Without;
      var source := HasShadow(s, n);
      var target := HasShadow(d, n);
      var moved: seq<(nat, SymByte)> := [];
      if source {
        moved := SymbolicBytes(s, n);
      } else {
        NoneMoved(shadow, s, 0, n);
      }
      hide Moved;
      mem := Overwrite(mem, d, mem[s..s + n]);
      if target {
        ClearShadow(d, n);
      } else {
        NothingCleared(shadow, d, n);
      }
      SetMoved(d, n, moved);
      CopiedCells(old(mem), old(shadow), mem, shadow, d, s, n);
    }

    method SetMoved(d: nat, n: nat, moved: seq<(nat, SymByte)>)
      requires ExactCounts(shadow, gran, |mem|) && d + n <= |mem| && forall k :: 0 <= k < |moved| ==> moved[k].0 < n
      modifies this`shadow, this`gran
      ensures ExactCounts(shadow, gran, |mem|) && shadow == Placed(old(shadow), d, moved)
    {
      hide ExactCounts;
      for k := 0 to |moved|
        invariant ExactCounts(shadow, gran, |mem|) && shadow == Placed(old(shadow), d, moved[..k])
      {
        assert moved[..k + 1][..k] == moved[..k];
        SetShadow(d + moved[k].0, Some(moved[k].1));
      }
      assert moved[..|moved|] == moved;
    }

    /** Load `size` bytes at `addr`, zero-extended. */
    method Load(addr: nat, size: nat) returns (v: V)
      requires Valid() && addr + size <= |mem| && size <= 8
      modifies this`syms
      ensures Valid() && Assembled(old(syms), Cells()[addr..addr + size], syms, v)
    {
      var any := HasShadow(addr, size);
      if !any {
        v := C(FromBytes(mem[addr..addr + size]));
        ConcreteRange(syms, mem, shadow, addr, size);
      } else {
        v := Assemble(Range(mem, shadow, addr, size));
      }
    }

    /**
     * A value from its little-endian bytes. The bytes of a select resolve arm-wise into a select of the
     * two assembled values; the bytes of one wire, all in place, are that wire; others stay bytes.
     */
    method Assemble(bytes: seq<Cell>) returns (v: V)
      requires Valid() && OkCells(bytes, |syms|) && |bytes| <= 8
      modifies this`syms
      ensures Valid() && Assembled(old(syms), bytes, syms, v)
      decreases SymSum(bytes)
    {
      var first := FirstSym(bytes);
      if first.None? {
        v := C(FromBytes(Unsym(bytes)));
        AssembledConcrete(syms, bytes);
        return;
      }
      var ite := FirstIte(syms, bytes);
      if ite.Some? {
        var s := ite.value;
        var Ite(cond, t, e) := syms[s];
        var (tb, eb) := (ArmBytes(syms, bytes, s, t), ArmBytes(syms, bytes, s, e));
        ghost var syms0 := syms;
        ArmOk(syms, bytes, s, t);
        ArmOk(syms, bytes, s, e);
        var tv := Assemble(tb);
        ghost var syms1 := syms;
        var ev := Assemble(eb);
        ghost var syms2 := syms;
        if |bytes| <= 4 {
          NarrowStable(syms1, syms2, tv);
        }
        v := NewIte(cond, tv, ev);
        AssembledSelect(syms0, bytes, s, syms1, tv, syms2, ev, syms, v);
        return;
      }
      if OneWire(syms, bytes, first.value) {
        v := V(0, first.value.sym);
        AssembledWire(syms, bytes, first.value);
        return;
      }
      v := NewSym(Bytes(bytes));
      AssembledBytes(old(syms), bytes);
    }

    // ----- branch paths -----

    /** Start recording a branch path's writes. */
    method OpenPath()
      requires Valid()
      modifies this`journals
      ensures Valid() && journals == old(journals) + [[]]
    {
      journals := journals + [[]];
    }

    method ReplayByte(a: nat, c: Cell)
      requires Valid() && a < |mem| && OkCell(c, |syms|)
      modifies this`mem, this`shadow, this`gran, this`journals
      ensures Valid() && |mem| == old(|mem|)
      ensures Cells() == old(Cells())[a := c]
      ensures Journaled(old(journals), old(Cells()), journals, Cells())
    {
      JournaledByte(journals, Cells(), a, c);
      Journal(a, 1);
      PutByte(a, c);
    }

    /** Replay a path's writes, as writes of the enclosing path. */
    method Replay(writes: Writes)
      requires Valid() && OkWrites(writes, |mem|, |syms|)
      modifies this`mem, this`shadow, this`gran, this`journals
      ensures Valid() && |mem| == old(|mem|)
      ensures Cells() == Apply(writes, old(Cells()))
      ensures Journaled(old(journals), old(Cells()), journals, Cells())
    {
      var i := 0;
      JournaledRefl(journals, Cells());
      while i < |writes|
        invariant 0 <= i <= |writes| && |mem| == old(|mem|)
        invariant Valid()
        invariant Cells() == Apply(writes[..i], old(Cells()))
        invariant Journaled(old(journals), old(Cells()), journals, Cells())
      {
        var (a, c) := writes[i];
        ghost var (js, cells) := (journals, Cells());
        ReplayByte(a, c);
        JournaledTrans(old(journals), old(Cells()), js, cells, journals, Cells());
        assert writes[..i + 1][..i] == writes[..i];
        i := i + 1;
      }
      assert writes[..|writes|] == writes;
    }

    /**
     * The innermost path ended: pop its journal, list the final contents of every byte it touched, and
     * put the old contents back.
     */
    method ClosePath() returns (writes: Writes)
      requires Valid() && |journals| > 0
      modifies this`mem, this`shadow, this`gran, this`journals
      ensures Valid() && |mem| == old(|mem|)
      ensures journals == old(journals)[..|old(journals)| - 1]
      ensures Cells() == Undo(old(journals)[|old(journals)| - 1], old(Cells()))
      ensures OkWrites(writes, |mem|, |syms|) && Apply(writes, Cells()) == old(Cells())
    {
      var journal := journals[|journals| - 1];
      journals := journals[..|journals| - 1];
      writes := [];
      var a := 0;
      // Every touched address, ascending, once.
      while a < |mem|
        invariant 0 <= a <= |mem|
        invariant OkWrites(writes, |mem|, |syms|)
        invariant forall x, cells: seq<Cell> {:trigger Apply(writes, cells)[x]} ::
          |cells| == |mem| && 0 <= x < |mem| ==>
          Apply(writes, cells)[x] == if x < a && Touched(journal, x) then Cells()[x] else cells[x]
      {
        if Touched(journal, a) {
          var c := Cell(mem[a], if a in shadow then Some(shadow[a]) else None);
          assert c == Cells()[a];
          assert (writes + [(a, c)])[..|writes|] == writes;
          writes := writes + [(a, c)];
        }
        a := a + 1;
      }
      UndoUntouched(journal, Cells());
      UndoJournal(journal);
      assert Apply(writes, Cells()) == old(Cells());
    }

    /** Put a journal's contents back, newest first. */
    method UndoJournal(journal: seq<JournalEntry>)
      requires Valid() && OkJournal(journal, |mem|, |syms|)
      modifies this`mem, this`shadow, this`gran
      ensures Valid() && |mem| == old(|mem|)
      ensures Cells() == Undo(journal, old(Cells()))
    {
      var i := |journal|;
      assert journal[..i] == journal;
      while i > 0
        invariant 0 <= i <= |journal| && |mem| == old(|mem|)
        invariant Valid()
        invariant Undo(journal[..i], Cells()) == Undo(journal, old(Cells()))
      {
        i := i - 1;
        assert journal[..i + 1][..i] == journal[..i];
        WriteCells(journal[i].addr, journal[i].before);
      }
    }

    // ----- merging two paths' memories -----

    /** What the word of `size` bytes at `w` would be had the path's writes been made. */
    method WordWith(w: nat, size: nat, writes: Writes) returns (v: V)
      requires Valid() && w + size <= |mem| && size <= 8 && OkWrites(writes, |mem|, |syms|)
      modifies this`mem, this`shadow, this`gran, this`syms
      ensures Valid() && Cells() == old(Cells())
      ensures Assembled(old(syms), Apply(writes, old(Cells()))[w..w + size], syms, v)
    {
      var saved := Range(mem, shadow, w, size);
      var overlay := Overlay(writes, w, saved);
      OverlayApplies(writes, w, saved, Cells());
      OverlayOk(writes, w, saved, |mem|, |syms|);
      WriteCells(w, overlay);
      assert Cells()[w..w + size] == overlay;
      v := Load(w, size);
      WriteCells(w, saved);
      assert Cells() == old(Cells());
    }

    /** One word of the merge: `cond ? then-path's word : else-path's word`. */
    method MergeWord(w: nat, size: nat, cond: nat, tw: Writes, ew: Writes)
      requires Valid() && w + size <= |mem| && size <= 8 && IsCond(syms, cond)
      requires OkWrites(tw, |mem|, |syms|) && OkWrites(ew, |mem|, |syms|)
      modifies this`mem, this`shadow, this`gran, this`syms, this`journals
      ensures Valid() && |mem| == old(|mem|) && old(syms) <= syms
      ensures Journaled(old(journals), old(Cells()), journals, Cells())
      ensures forall a :: 0 <= a < |mem| && !(w <= a < w + size) ==> Cells()[a] == old(Cells())[a]
      ensures Selects(old(syms), cond, Apply(tw, old(Cells())), Apply(ew, old(Cells())), syms, Cells(), w, w + size)
    {
      ghost var (cells, syms0) := (Cells(), syms);
      var tv := WordWith(w, size, tw);
      ghost var syms1 := syms;
      var ev := WordWith(w, size, ew);
      ghost var syms2 := syms;
      var v := NewIte(cond, tv, ev);
      Store(w, size, v);
      ApplyOk(tw, cells, |syms0|);
      ApplyOk(ew, cells, |syms0|);
      WordSelects(syms0, cond, Apply(tw, cells), Apply(ew, cells), w, size, syms1, tv, syms2, ev, syms, v, Cells());
    }

    /** One step of the merge below: the word at `w`, if either path touched it. */
    method MergeStep(cond: nat, tw: Writes, ew: Writes, w: nat, size: nat, ghost syms0: seq<Sym>,
                     ghost js0: seq<seq<JournalEntry>>, ghost before: seq<Cell>)
      requires Valid() && w + size <= |mem| == |before| && size <= 8 && IsCond(syms0, cond) && syms0 <= syms
      requires OkCells(before, |syms0|) && OkWrites(tw, |mem|, |syms0|) && OkWrites(ew, |mem|, |syms0|)
      requires Journaled(js0, before, journals, Cells())
      requires forall a :: w <= a < |mem| ==> Cells()[a] == before[a]
      requires Selects(syms0, cond, Apply(tw, before), Apply(ew, before), syms, Cells(), 0, w)
      modifies this`mem, this`shadow, this`gran, this`syms, this`journals
      ensures Valid() && |mem| == old(|mem|) && old(syms) <= syms
      ensures Journaled(js0, before, journals, Cells())
      ensures forall a :: w + size <= a < |mem| ==> Cells()[a] == before[a]
      ensures Selects(syms0, cond, Apply(tw, before), Apply(ew, before), syms, Cells(), 0, w + size)
    {
      ghost var (js, now, syms1) := (journals, Cells(), syms);
      if TouchesWord(tw, w) || TouchesWord(ew, w) {
        MergeWord(w, size, cond, tw, ew);
        JournaledTrans(js0, before, js, now, journals, Cells());
        SelectsMerged(syms0, cond, tw, ew, before, syms1, now, syms, Cells(), w, size);
      } else {
        SelectsUntouched(syms0, cond, tw, ew, before, syms, Cells(), w, size);
      }
    }

    /** Memory becomes, byte by byte, the then-path's where `cond` holds and the else-path's where not. */
    method MergeMemory(cond: nat, tw: Writes, ew: Writes)
      requires Valid() && IsCond(syms, cond)
      requires OkWrites(tw, |mem|, |syms|) && OkWrites(ew, |mem|, |syms|)
      modifies this`mem, this`shadow, this`gran, this`syms, this`journals
      ensures Valid() && |mem| == old(|mem|) && old(syms) <= syms
      ensures Journaled(old(journals), old(Cells()), journals, Cells())
      ensures Selects(old(syms), cond, Apply(tw, old(Cells())), Apply(ew, old(Cells())), syms, Cells(), 0, |mem|)
    {
      ghost var before := Cells();
      var w := 0;
      JournaledRefl(journals, before);
      while w < |mem|
        invariant w <= |mem| == |before|
        invariant Valid() && old(syms) <= syms
        invariant Journaled(old(journals), before, journals, Cells())
        invariant forall a :: w <= a < |mem| ==> Cells()[a] == before[a]
        invariant Selects(old(syms), cond, Apply(tw, before), Apply(ew, before), syms, Cells(), 0, w)
        decreases |mem| - w
      {
        var size := if 8 < |mem| - w then 8 else |mem| - w;
        MergeStep(cond, tw, ew, w, size, old(syms), old(journals), before);
        w := w + size;
      }
    }
  }
}
