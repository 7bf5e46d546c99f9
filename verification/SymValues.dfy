/**
 * The interpreter's values: concrete bits, or an index into an append-only table of symbols.
 * A wire stands for the i32 operation the host lowered to rows; `Valuation` is what every
 * symbol is worth once the circuit's inputs are fixed.
 */
module SymValues {
  import opened Words

  const U32: nat := 0x1_0000_0000

  /** Concrete bits `b` when `s == 0`, else symbol `s` (the bits are then meaningless). */
  datatype V = V(b: nat, s: nat) {
    predicate IsSym() { s != 0 }
  }

  function C(b: nat): V { V(b, 0) }

  /** One byte's symbolic content: byte `k` of symbol `sym`. */
  datatype SymByte = SymByte(sym: nat, k: nat)

  /** One memory byte: its bits, and its symbolic content when it has one. */
  datatype Cell = Cell(byte: Byte, sb: Option<SymByte>)

  datatype Sym =
    | NoSym
    | Wire(width: nat, def: Def)
    | Ite(cond: nat, t: V, e: V)
    | Bytes(cells: seq<Cell>)

  datatype Bin = Add | Sub | Mul | DivU | RemU | And | Or | Xor | Shl | ShrU
  datatype Cmp = Eq | Ne | LtU | GtU | LeU | GeU | LtS | GtS | LeS | GeS

  /** One arm of a witness branch: the condition it is under, and the value that takes it. */
  datatype Lit = Lit(cond: nat, value: bool)

  /** What a wire's rows force it to be. A division is made in the arms `guards`, and is 0 where they are not taken. */
  datatype Def =
    | Input(k: nat)
    | BinOf(o: Bin, a: V, b: V)
    | DivOf(o: Bin, a: V, b: V, guards: seq<Lit>)
    | CmpOf(c: Cmp, a: V, b: V)
    | NotOf(a: V)
    | BoolOf(o: Bin, a: V, b: V)

  type Inputs = seq<nat>

  // ----- concrete i32 arithmetic (WebAssembly Core Specification 1.0, section 4.3.2) -----

  function BitOp(o: Bin, x: nat, y: nat, n: nat): (r: nat)
    ensures r < Pow2(n)
  {
    if n == 0 then 0
    else
      var p := x % 2 == 1;
      var q := y % 2 == 1;
      var bit := if o.And? then p && q else if o.Or? then p || q else p != q;
      (if bit then 1 else 0) + 2 * BitOp(o, x / 2, y / 2, n - 1)
  }

  lemma TwoTo32()
    ensures Pow2(32) == U32
  {
    var p := Pow2(8);
    assert p == 256;
    Pow2Add(8, 8);
    assert Pow2(16) == 65536;
    Pow2Add(16, 16);
  }

  function Bitwise(o: Bin, a: nat, b: nat): (r: nat)
    ensures r < U32
  {
    TwoTo32();
    BitOp(o, a, b, 32)
  }

  predicate Traps(o: Bin, b: nat) {
    (o.DivU? || o.RemU?) && b == 0
  }

  /** `i32_bin`; a division by zero (a trap, see `Traps`) is given the value 0. */
  function BinVal(o: Bin, a: nat, b: nat): (r: nat)
    ensures r < U32
  {
    match o
    case Add => (a + b) % U32
    case Sub => (a - b) % U32
    case Mul => (a * b) % U32
    case DivU => if b == 0 then 0 else (a / b) % U32
    case RemU => if b == 0 then 0 else (a % b) % U32
    case Shl => (a * Pow2(b % 32)) % U32
    case ShrU => (a / Pow2(b % 32)) % U32
    case _ => Bitwise(o, a, b)
  }

  /** The i32 with `x`'s sign bit flipped: signed order is unsigned order after it. */
  function SignFlip(x: nat): nat { (x + 0x8000_0000) % U32 }

  function CmpVal(o: Cmp, a: nat, b: nat): bool {
    match o
    case Eq => a == b
    case Ne => a != b
    case LtU => a < b
    case GtU => a > b
    case LeU => a <= b
    case GeU => a >= b
    case LtS => SignFlip(a) < SignFlip(b)
    case GtS => SignFlip(a) > SignFlip(b)
    case LeS => SignFlip(a) <= SignFlip(b)
    case GeS => SignFlip(a) >= SignFlip(b)
  }

  function Bit(p: bool): nat { if p then 1 else 0 }

  function BoolVal(o: Bin, a: nat, b: nat): nat {
    Bit(if o.And? then a != 0 && b != 0 else if o.Or? then a != 0 || b != 0 else (a != 0) != (b != 0))
  }

  // ----- what symbols are worth -----

  /** `v` under `vals`, the worth of every symbol. */
  function Val(vals: seq<nat>, v: V): nat {
    if v.s == 0 then v.b else if v.s < |vals| then vals[v.s] else 0
  }

  function CellVal(vals: seq<nat>, c: Cell): Byte {
    match c.sb
    case None => c.byte
    case Some(sb) => ByteAt(if sb.sym < |vals| then vals[sb.sym] else 0, sb.k)
  }

  function CellVals(vals: seq<nat>, cells: seq<Cell>): (bs: seq<Byte>)
    ensures |bs| == |cells|
    ensures forall i :: 0 <= i < |cells| ==> bs[i] == CellVal(vals, cells[i])
  {
    seq(|cells|, i requires 0 <= i < |cells| => CellVal(vals, cells[i]))
  }

  predicate Taken(guards: seq<Lit>, vals: seq<nat>) {
    forall i :: 0 <= i < |guards| ==> (Val(vals, V(0, guards[i].cond)) != 0) == guards[i].value
  }

  function DefVal(d: Def, vals: seq<nat>, inp: Inputs): nat {
    match d
    case Input(k) => if k < |inp| then inp[k] else 0
    case BinOf(o, a, b) => BinVal(o, Val(vals, a), Val(vals, b))
    case DivOf(o, a, b, guards) => if Taken(guards, vals) then BinVal(o, Val(vals, a), Val(vals, b)) else 0
    case CmpOf(c, a, b) => Bit(CmpVal(c, Val(vals, a), Val(vals, b)))
    case NotOf(a) => Bit(Val(vals, a) == 0)
    case BoolOf(o, a, b) => BoolVal(o, Val(vals, a), Val(vals, b))
  }

  ghost function SymVal(x: Sym, vals: seq<nat>, inp: Inputs): nat {
    match x
    case NoSym => 0
    // An input wire is range-checked to its width.
    case Wire(width, def) => DefVal(def, vals, inp) % Pow2(width)
    case Ite(cond, t, e) => if Val(vals, V(0, cond)) != 0 then Val(vals, t) else Val(vals, e)
    case Bytes(cells) => FromBytes(CellVals(vals, cells))
  }

  ghost function Valuation(syms: seq<Sym>, inp: Inputs): (vals: seq<nat>)
    ensures |vals| == |syms|
  {
    if syms == [] then []
    else
      var before := Valuation(syms[..|syms| - 1], inp);
      before + [SymVal(syms[|syms| - 1], before, inp)]
  }

  // ----- well-formedness: a symbol only mentions earlier ones -----

  ghost predicate OkV(v: V, n: nat) {
    if v.s == 0 then v.b < Pow256(8) else v.s < n
  }

  ghost predicate OkCell(c: Cell, n: nat) {
    c.sb.Some? ==> 0 < c.sb.value.sym < n
  }

  ghost predicate OkCells(cells: seq<Cell>, n: nat) {
    forall i :: 0 <= i < |cells| ==> OkCell(cells[i], n)
  }

  ghost predicate OkDef(d: Def, n: nat) {
    match d
    case Input(_) => true
    case NotOf(a) => OkV(a, n)
    case DivOf(_, a, b, guards) =>
      OkV(a, n) && OkV(b, n) && forall i :: 0 <= i < |guards| ==> 0 < guards[i].cond < n
    case _ => OkV(d.a, n) && OkV(d.b, n)
  }

  ghost predicate OkSym(x: Sym, n: nat) {
    match x
    case NoSym => false
    case Wire(width, def) => width <= 64 && OkDef(def, n)
    case Ite(cond, t, e) => 0 < cond < n && OkV(t, n) && OkV(e, n)
    case Bytes(cells) => |cells| <= 8 && OkCells(cells, n)
  }

  predicate IsDivision(x: Sym) {
    x.Wire? && x.def.DivOf?
  }

  /** A branch condition: a `{0,1}` wire. */
  predicate IsCond(syms: seq<Sym>, c: nat) {
    0 < c < |syms| && syms[c].Wire? && syms[c].width == 1
  }

  /** Symbol 0 is the placeholder of concrete values; every other one looks back only. */
  ghost predicate OkSyms(syms: seq<Sym>) {
    && |syms| > 0 && syms[0] == NoSym
    && (forall i :: 1 <= i < |syms| ==> OkSym(syms[i], i))
    && forall i :: 1 <= i < |syms| && syms[i].Ite? ==> IsCond(syms, syms[i].cond)
  }

  /** Symbols never change worth as the table grows. */
  lemma {:induction false} ValuationPrefix(syms: seq<Sym>, more: seq<Sym>, inp: Inputs)
    requires syms <= more
    ensures Valuation(syms, inp) <= Valuation(more, inp)
    decreases |more|
  {
    if |syms| < |more| {
      assert syms <= more[..|more| - 1];
      ValuationPrefix(syms, more[..|more| - 1], inp);
    } else {
      assert syms == more;
    }
  }

  /** A symbol is worth what its definition says of the symbols before it. */
  lemma {:induction false} ValuationAt(syms: seq<Sym>, inp: Inputs, i: nat)
    requires i < |syms|
    ensures Valuation(syms, inp)[i] == SymVal(syms[i], Valuation(syms[..i], inp), inp)
  {
    var upto := syms[..i + 1];
    ValuationPrefix(upto, syms, inp);
    assert upto[..i] == syms[..i];
  }

  lemma DefStable(d: Def, vals: seq<nat>, more: seq<nat>, inp: Inputs)
    requires OkDef(d, |vals|) && vals <= more
    ensures DefVal(d, more, inp) == DefVal(d, vals, inp)
  {
    if d.DivOf? {
      assert forall i :: 0 <= i < |d.guards| ==>
        Val(more, V(0, d.guards[i].cond)) == Val(vals, V(0, d.guards[i].cond));
    }
  }

  /** The worth of a symbol, read off the whole table. */
  lemma SymWorth(syms: seq<Sym>, inp: Inputs, i: nat)
    requires OkSyms(syms) && 0 < i < |syms|
    ensures Valuation(syms, inp)[i] == SymVal(syms[i], Valuation(syms, inp), inp)
  {
    ValuationAt(syms, inp, i);
    ValuationPrefix(syms[..i], syms, inp);
    var (vals, all) := (Valuation(syms[..i], inp), Valuation(syms, inp));
    match syms[i] {
      case Bytes(cells) =>
        assert CellVals(vals, cells) == CellVals(all, cells);
      case Wire(_, def) => DefStable(def, vals, all, inp);
      case _ =>
    }
  }

  /** Every symbol fits 64 bits, and a wire its width. */
  lemma SymBound(syms: seq<Sym>, inp: Inputs, i: nat)
    requires OkSyms(syms) && i < |syms|
    ensures Valuation(syms, inp)[i] < Pow256(8)
    ensures syms[i].Wire? ==> Valuation(syms, inp)[i] < Pow2(syms[i].width)
    decreases i
  {
    var vals := Valuation(syms, inp);
    if i == 0 {
      ValuationAt(syms, inp, 0);
    } else {
      SymWorth(syms, inp, i);
      match syms[i] {
        case Wire(width, def) =>
          Pow256IsPow2(8);
          Pow2Mono(width, 64);
        case Ite(cond, t, e) =>
          SymBound(syms, inp, t.s);
          SymBound(syms, inp, e.s);
        case Bytes(cells) =>
          FromBytesBound(CellVals(vals, cells));
          Pow256Mono(|cells|, 8);
      }
    }
  }

  // ----- i32 operands -----

  /** `v` holds an i32, and so does every arm it can select. */
  ghost predicate Narrow(syms: seq<Sym>, v: V)
    decreases v.s
  {
    if v.s == 0 then v.b < U32
    else
      && v.s < |syms|
      && match syms[v.s]
         case NoSym => false
         case Wire(width, _) => width <= 32
         case Ite(_, t, e) => t.s < v.s && e.s < v.s && Narrow(syms, t) && Narrow(syms, e)
         case Bytes(cells) => |cells| <= 4
  }

  lemma {:induction false} NarrowStable(syms: seq<Sym>, more: seq<Sym>, v: V)
    requires syms <= more && Narrow(syms, v)
    ensures Narrow(more, v)
    decreases v.s
  {
    if v.IsSym() && syms[v.s].Ite? {
      assert more[v.s] == syms[v.s];
      NarrowStable(syms, more, syms[v.s].t);
      NarrowStable(syms, more, syms[v.s].e);
    }
  }

  lemma NarrowOk(syms: seq<Sym>, v: V)
    requires Narrow(syms, v)
    ensures OkV(v, |syms|)
  {
    Pow256Mono(4, 8);
    assert Pow256(4) == U32;
  }

  lemma {:induction false} NarrowBound(syms: seq<Sym>, inp: Inputs, v: V)
    requires OkSyms(syms) && Narrow(syms, v)
    ensures Val(Valuation(syms, inp), v) < U32
    decreases v.s
  {
    if v.IsSym() {
      SymWorth(syms, inp, v.s);
      match syms[v.s] {
        case Wire(width, _) =>
          SymBound(syms, inp, v.s);
          Pow2Mono(width, 32);
          TwoTo32();
        case Ite(_, t, e) =>
          NarrowBound(syms, inp, t);
          NarrowBound(syms, inp, e);
        case Bytes(cells) =>
          FromBytesBound(CellVals(Valuation(syms, inp), cells));
          Pow256Mono(|cells|, 4);
          assert Pow256(4) == U32;
      }
    }
  }
}
