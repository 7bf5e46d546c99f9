/**
 * Field values as four words of guest memory: a constant, a variable, or a handle into a table of linear
 * combinations whose slots are collected and reused.
 */
module Handles {
  import opened Words
  import opened Fields
  import opened Linear

  /** A field value's four 64-bit words. */
  datatype Quad = Quad(a: nat, b: nat, c: nat, d: nat)

  const SENTINEL: nat := 0xffff_ffff_ffff_ffff
  const MAGIC: nat := 0x6b72_6178_6b72_6178
  const KIND_VAR: nat := 1
  const KIND_LC: nat := 2

  predicate IsHandle(w: Quad) {
    w.d == SENTINEL && w.c == MAGIC
  }

  /** A handle to a slot of the table. */
  predicate IsSlotHandle(w: Quad) {
    IsHandle(w) && w.b % 256 == KIND_LC
  }

  datatype Decoded = Value(lc: Lc) | Stale | Corrupt

  /** Words of a non-negative constant below 2^256 that do not read as a handle. */
  function ConstWords(c: int): Option<Quad> {
    if c < 0 || c >= Pow2(256) then None
    else
      var w := Pow2(64);
      var q := Quad(c % w, c / w % w, c / w / w % w, c / w / w / w % w);
      if IsHandle(q) then None else Some(q)
  }

  function WordsValue(w: Quad): int {
    var k := Pow2(64);
    w.a + k * (w.b + k * (w.c + k * w.d))
  }

  lemma ConstRoundTrip(c: int)
    requires ConstWords(c).Some?
    ensures WordsValue(ConstWords(c).value) == c
  {
    hide Pow2;
    var w := Pow2(64);
    Pow2Add(64, 64);
    Pow2Add(128, 64);
    Pow2Add(192, 64);
    var (x, y, z) := (c / w, c / w / w, c / w / w / w);
    FourDigits(c, w, x, y, z);
  }

  lemma Digit(c: nat, w: nat)
    requires w > 0
    ensures c == c % w + w * (c / w)
  {
  }

  lemma FourDigits(c: nat, w: nat, x: nat, y: nat, z: nat)
    requires w > 0 && x == c / w && y == x / w && z == y / w && c < w * w * w * w
    ensures c % w + w * (x % w + w * (y % w + w * (z % w))) == c
  {
    QuotientBelow(c, w, w * w * w);
    QuotientBelow(x, w, w * w);
    QuotientBelow(y, w, w);
    ModSmall(z, w);
    Digit(c, w);
    Digit(x, w);
    Digit(y, w);
  }

  /** The handle of generation `g` of slot `i`. */
  function HandleOf(i: nat, g: nat): Quad {
    Quad(i, KIND_LC + 256 * g, MAGIC, SENTINEL)
  }

  /** The table of linear combinations behind handles. */
  class Handles {
    var lcs: seq<Option<Lc>>
    var gens: seq<nat>
    var free: seq<nat>
    var gcAt: nat
    /** Which form each handle was issued for. */
    ghost var issued: map<(nat, nat), Lc>

    constructor ()
      ensures Valid() && issued == map[]
    {
      lcs, gens, free, gcAt, issued := [], [], [], 0x10_0000, map[];
    }

    ghost predicate Valid()
      reads this
    {
      && |lcs| == |gens|
      && (forall i :: 0 <= i < |free| ==> free[i] < |lcs| && lcs[free[i]].None?)
      && (forall i, j :: 0 <= i < j < |free| ==> free[i] != free[j])
      && OkTable(lcs, gens, issued)
    }

    /** What the words denote: a constant, a variable, or the form a handle was issued for. */
    ghost function Denotes(w: Quad): Option<Lc>
      reads this
    {
      Meaning(issued, w)
    }

    /** The words of `lc`; `scan` lists the slots some handle in guest state may still reach. */
    method FieldWords(lc: Lc, scan: set<nat>, atTop: bool) returns (w: Quad)
      requires Valid()
      modifies this
      ensures Valid() && Denotes(w) == Some(lc)
      ensures forall u: Quad :: old(Denotes(u)).Some? ==> Denotes(u) == old(Denotes(u))
      ensures forall u: Quad :: old(Decode(u)).Value? && u.a in scan ==> Decode(u) == old(Decode(u))
      ensures Decode(w) == Value(lc)
    {
      if IsConst(lc) {
        var c := ConstWords(lc.constant);
        if c.Some? {
          ConstRoundTrip(lc.constant);
          return c.value;
        }
      }
      if lc.constant == 0 && |lc.terms| == 1 && lc.terms[0].coeff == 1 {
        BareVar(lc);
        return Quad(lc.terms[0].v, KIND_VAR, MAGIC, SENTINEL);
      }
      if |lcs| - |free| >= gcAt && atTop {
        Collect(scan);
      }
      var slot := Take(lc);
      w := HandleOf(slot, gens[slot]);
    }

    /** Put `lc` in a slot no one uses. */
    method Take(lc: Lc) returns (slot: nat)
      requires Valid()
      modifies this`lcs, this`gens, this`free, this`issued
      ensures Valid() && slot < |gens| && Decode(HandleOf(slot, gens[slot])) == Value(lc)
        && Denotes(HandleOf(slot, gens[slot])) == Some(lc)
      ensures forall u: Quad :: old(Denotes(u)).Some? ==> Denotes(u) == old(Denotes(u))
      ensures forall u: Quad :: old(Decode(u)).Value? ==> Decode(u) == old(Decode(u))
    {
      ghost var (lcs0, gens0, issued0) := (lcs, gens, issued);
      if free != [] {
        slot := free[|free| - 1];
        free := free[..|free| - 1];
        lcs := lcs[slot := Some(lc)];
      } else {
        slot := |lcs|;
        lcs := lcs + [Some(lc)];
        gens := gens + [0];
      }
      issued := issued[(slot, gens[slot]) := lc];
      NewHandle(lcs0, gens0, issued0, slot, lc, lcs, gens, issued);
    }

    /** Free every slot outside `live`; a freed slot's next handle has a new generation, and its handles are stale. */
    method Collect(live: set<nat>)
      requires Valid()
      modifies this`lcs, this`gens, this`free, this`gcAt
      ensures Valid() && forall u: Quad :: old(Decode(u)).Value? && u.a in live ==> Decode(u) == old(Decode(u))
      ensures forall u: Quad :: IsSlotHandle(u) && u.a !in live && old(Denotes(u)).Some? ==> Decode(u) == Stale
      ensures forall u: Quad :: !IsSlotHandle(u) ==> Decode(u) == old(Decode(u))
      ensures |lcs| == old(|lcs|) && forall j :: 0 <= j < |lcs| ==> lcs[j] == if j in live then old(lcs)[j] else None
    {
      var i := 0;
      ghost var (lcs0, gens0) := (lcs, gens);
      while i < |lcs|
        invariant 0 <= i <= |lcs| == |lcs0| && Valid()
        invariant forall j :: 0 <= j < |lcs| && (j >= i || j in live) ==> lcs[j] == lcs0[j] && gens[j] == gens0[j]
        invariant forall j :: 0 <= j < i && j !in live ==> lcs[j].None?
      {
        if i !in live && lcs[i].Some? {
          FreedSlot(lcs, gens, issued, i);
          lcs := lcs[i := None];
          gens := gens[i := gens[i] + 1];
          free := free + [i];
        }
        i := i + 1;
      }
      forall u: Quad | IsSlotHandle(u) && u.a !in live && Denotes(u).Some?
        ensures Decode(u) == Stale
      {
        assert OkIssued(lcs, gens, issued, u.a, u.b / 256);
      }
      var inUse := |lcs| - |free|;
      gcAt := if 2 * inUse > 0x10_0000 then 2 * inUse else 0x10_0000;
    }

    /** What the words hold. */
    function Decode(w: Quad): Decoded
      reads this
    {
      if IsHandle(w) then
        if w.b % 256 == KIND_VAR then Value(Var(w.a))
        else if w.b % 256 == KIND_LC then
          if w.a < |lcs| && w.a < |gens| && lcs[w.a].Some? && gens[w.a] == w.b / 256 then Value(lcs[w.a].value)
            else Stale
        else Corrupt
      else Value(Const(WordsValue(w)))
    }

    /** Decoding gives what the words denote, or an error: a stale handle never reads as another value. */
    lemma DecodeIsHonest(w: Quad)
      requires Valid() && Denotes(w).Some?
      ensures Decode(w) == Value(Denotes(w).value) || Decode(w) == Stale
    {
      if IsHandle(w) && w.b % 256 == KIND_LC && w.a < |lcs| {
        assert OkIssued(lcs, gens, issued, w.a, w.b / 256);
      }
    }
  }

  ghost function Meaning(issued: map<(nat, nat), Lc>, w: Quad): Option<Lc> {
    if !IsHandle(w) then Some(Const(WordsValue(w)))
    else if w.b % 256 == KIND_VAR then Some(Var(w.a))
    else if w.b % 256 == KIND_LC && (w.a, w.b / 256) in issued then Some(issued[(w.a, w.b / 256)])
    else None
  }

  /** A slot in use holds what its current handle was issued for; a free slot's next handle is new. */
  ghost predicate OkSlot(lcs: seq<Option<Lc>>, gens: seq<nat>, issued: map<(nat, nat), Lc>, i: nat)
    requires i < |lcs| == |gens|
  {
    match lcs[i]
    case Some(lc) => (i, gens[i]) in issued && issued[(i, gens[i])] == lc
    case None => (i, gens[i]) !in issued
  }

  /** No handle is of a generation to come. */
  ghost predicate OkIssued(lcs: seq<Option<Lc>>, gens: seq<nat>, issued: map<(nat, nat), Lc>, i: nat, g: nat)
    requires |lcs| == |gens| && (i, g) in issued
  {
    i < |lcs| && g <= gens[i] && (g == gens[i] ==> lcs[i] == Some(issued[(i, g)]))
  }

  ghost predicate OkTable(lcs: seq<Option<Lc>>, gens: seq<nat>, issued: map<(nat, nat), Lc>) {
    && |lcs| == |gens|
    && (forall i :: 0 <= i < |lcs| ==> OkSlot(lcs, gens, issued, i))
    && (forall i, g :: (i, g) in issued ==> OkIssued(lcs, gens, issued, i, g))
  }

  /** No handle has a generation its slot has not reached, or reaches only with its next use. */
  lemma NotYetIssued(lcs: seq<Option<Lc>>, gens: seq<nat>, issued: map<(nat, nat), Lc>, i: nat, g: nat)
    requires OkTable(lcs, gens, issued) && (i < |lcs| ==> g > gens[i] || (g == gens[i] && lcs[i].None?))
    ensures (i, g) !in issued
  {
  }

  /** A handle to a slot that was free, or is new: no handle before it had its slot and generation. */
  lemma NewHandle(lcs0: seq<Option<Lc>>, gens0: seq<nat>, issued0: map<(nat, nat), Lc>, slot: nat, lc: Lc,
                  lcs: seq<Option<Lc>>, gens: seq<nat>, issued: map<(nat, nat), Lc>)
    requires OkTable(lcs0, gens0, issued0) && |lcs| == |gens| && slot < |lcs|
      && issued == issued0[(slot, gens[slot]) := lc]
    requires if slot < |lcs0| then lcs0[slot].None? && lcs == lcs0[slot := Some(lc)] && gens == gens0
             else slot == |lcs0| && lcs == lcs0 + [Some(lc)] && gens == gens0 + [0]
    ensures OkTable(lcs, gens, issued) && (slot, gens[slot]) !in issued0
  {
    NotYetIssued(lcs0, gens0, issued0, slot, gens[slot]);
    forall i | 0 <= i < |lcs|
      ensures OkSlot(lcs, gens, issued, i)
    {
      if i < |lcs0| {
        assert OkSlot(lcs0, gens0, issued0, i);
      }
    }
    forall i, g | (i, g) in issued
      ensures OkIssued(lcs, gens, issued, i, g)
    {
      if (i, g) in issued0 {
        assert OkIssued(lcs0, gens0, issued0, i, g);
      }
    }
  }

  lemma FreedSlot(lcs: seq<Option<Lc>>, gens: seq<nat>, issued: map<(nat, nat), Lc>, i: nat)
    requires OkTable(lcs, gens, issued) && i < |lcs| && lcs[i].Some?
    ensures OkTable(lcs[i := None], gens[i := gens[i] + 1], issued)
  {
    var (lcs', gens') := (lcs[i := None], gens[i := gens[i] + 1]);
    forall j | 0 <= j < |lcs|
      ensures OkSlot(lcs', gens', issued, j)
    {
      assert OkSlot(lcs, gens, issued, j);
      NotYetIssued(lcs, gens, issued, i, gens[i] + 1);
    }
    forall j, g | (j, g) in issued
      ensures OkIssued(lcs', gens', issued, j, g)
    {
      assert OkIssued(lcs, gens, issued, j, g);
    }
  }

  lemma BareVar(lc: Lc)
    requires lc.constant == 0 && |lc.terms| == 1 && lc.terms[0].coeff == 1
    ensures lc == Var(lc.terms[0].v)
  {
  }
}
