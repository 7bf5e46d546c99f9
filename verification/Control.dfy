/**
 * Where execution can go, whatever the values are: states with the values forgotten, the instructions between them,
 * and how a label is left.
 */
module Control {
  import opened Words
  import opened Wasm

  /** A state with its values forgotten. */
  type Outline = State<()>

  function OutlineOf<T>(st: State<T>): Outline {
    State(st.pc, Blank(|st.stack|), Blank(|st.locals|), Blank(|st.globals|), st.ctl)
  }

  function Blank(n: nat): (r: seq<()>)
    ensures |r| == n
  {
    seq(n, _ => ())
  }

  /** One instruction leads from `s` to `t`; a branch may go either way. */
  ghost predicate Onward(code: seq<Op>, s: Outline, t: Outline) {
    && s.ctl != [] && s.pc < |code| && |s.stack| >= Operands(code[s.pc])
    && var op := code[s.pc];
      if op.If? || op.BrIf? then
        Target(|code|, s, op, true) == Some(t) || Target(|code|, s, op, false) == Some(t)
      else if Pushes(op) then t == s.Pop(Operands(op)).Push(())
      else if op.Store? then t == s.Pop(2).(pc := s.pc + 1)
      else Shape(|code|, op, s) == Some(t)
  }

  /** The instructions that take their operands and push a result. */
  predicate Pushes(op: Op) {
    op.Const? || op.Eqz? || op.Binop? || op.Cmpop? || op.Select? || op.Load?
  }

  /** The outlines of a run. */
  ghost predicate IsTrail(code: seq<Op>, trail: seq<Outline>) {
    forall i :: 0 <= i < |trail| - 1 ==> Onward(code, trail[i], trail[i + 1])
  }

  /** Instructions lead from `s0` to `s`. */
  ghost predicate Led(code: seq<Op>, s0: Outline, s: Outline) {
    exists trail: seq<Outline> ::
      IsTrail(code, trail) && trail != [] && trail[0] == s0 && trail[|trail| - 1] == s
  }

  lemma LedHere(code: seq<Op>, s0: Outline)
    ensures Led(code, s0, s0)
  {
    var trail := [s0];
    assert IsTrail(code, trail) && trail[0] == s0;
  }

  lemma LedOn(code: seq<Op>, s0: Outline, s: Outline, t: Outline)
    requires Led(code, s0, s) && Onward(code, s, t)
    ensures Led(code, s0, t)
  {
    hide Onward;
    var trail :| IsTrail(code, trail) && trail != [] && trail[0] == s0 && trail[|trail| - 1] == s;
    var more := trail + [t];
    assert IsTrail(code, more) && more[0] == s0 && more[|more| - 1] == t;
  }

  /** `s` was come to by leaving the label of `labels` just above those of `s`, or by going back to the start of the
      innermost of `s`, a loop's. */
  ghost predicate Left(code: seq<Op>, s0: Outline, labels: seq<Ctl>, s: Outline) {
    && |s.ctl| < |labels| && s.ctl == labels[..|s.ctl|]
    && exists prev :: Led(code, s0, prev) && Onward(code, prev, s) && Shares(prev.ctl, labels, |s.ctl|)
  }

  /** The same labels up to the one at `k`. */
  predicate Shares(ctl: seq<Ctl>, labels: seq<Ctl>, k: nat) {
    k < |ctl| && k < |labels| && ctl[..k + 1] == labels[..k + 1]
  }

  lemma LeftBy(code: seq<Op>, s0: Outline, prev: Outline, s: Outline)
    requires Led(code, s0, prev) && Onward(code, prev, s) && |s.ctl| < |prev.ctl|
    ensures Left(code, s0, prev.ctl, s)
  {
    OnwardKeeps(code, prev, s);
    assert Shares(prev.ctl, prev.ctl, |s.ctl|);
  }

  lemma LeftLed(code: seq<Op>, s0: Outline, labels: seq<Ctl>, s: Outline)
    requires Left(code, s0, labels, s)
    ensures Led(code, s0, s)
  {
    var prev :| Led(code, s0, prev) && Onward(code, prev, s) && Shares(prev.ctl, labels, |s.ctl|);
    LedOn(code, s0, prev, s);
  }

  /** Only the labels up to the one left matter. */
  lemma LeftOther(code: seq<Op>, s0: Outline, labels: seq<Ctl>, others: seq<Ctl>, s: Outline)
    requires Left(code, s0, labels, s) && Shares(others, labels, |s.ctl|)
    ensures Left(code, s0, others, s)
  {
    hide Onward, Led;
    var prev :| Led(code, s0, prev) && Onward(code, prev, s) && Shares(prev.ctl, labels, |s.ctl|);
    assert s.ctl == others[..|s.ctl| + 1][..|s.ctl|];
    assert Shares(prev.ctl, others, |s.ctl|);
  }

  /** A branch leads to `t` where it is taken and to `e` where not. */
  ghost predicate BranchesAt(code: seq<Op>, s: Outline, t: Outline, e: Outline) {
    && s.ctl != [] && s.pc < |code| && (code[s.pc].If? || code[s.pc].BrIf?) && |s.stack| > 0
    && Target(|code|, s, code[s.pc], true) == Some(t) && Target(|code|, s, code[s.pc], false) == Some(e)
  }

  ghost predicate Branches(code: seq<Op>, s0: Outline, t: Outline, e: Outline) {
    exists s :: Led(code, s0, s) && BranchesAt(code, s, t, e)
  }

  /** Two arms that left the same labels, are as deep, and are not at one point. */
  ghost predicate Parted(code: seq<Op>, s0: Outline, t: Outline, e: Outline) {
    && t.ctl == e.ctl && (t.pc != e.pc || |t.stack| != |e.stack|)
    && exists labels :: Left(code, s0, labels, t) && Left(code, s0, labels, e)
  }

  /** The labels below keep their places. */
  lemma OnwardKeeps(code: seq<Op>, s: Outline, t: Outline)
    requires Onward(code, s, t)
    ensures t.ctl <= s.ctl || (|t.ctl| == |s.ctl| + 1 && s.ctl <= t.ctl)
  {
  }

  // ----- the machine's instructions -----

  lemma BlankIs(s: seq<()>)
    ensures s == Blank(|s|)
  {
    forall i | 0 <= i < |s|
      ensures s[i] == Blank(|s|)[i]
    {
      assert s[i] == ();
    }
  }

  lemma JumpOutline<T>(n: nat, st: State<T>, depth: nat)
    ensures match Jump(n, st, depth)
      case None => Jump(n, OutlineOf(st), depth).None?
      case Some(next) => Jump(n, OutlineOf(st), depth) == Some(OutlineOf(next))
  {
    if Jump(n, st, depth).Some? {
      var (c, b) := (st.ctl[|st.ctl| - 1 - depth], Blank(|st.stack|));
      BlankIs(b[..c.height] + b[|b| - c.arity..]);
    }
  }

  lemma PopOutline<T>(st: State<T>, n: nat)
    requires n <= |st.stack|
    ensures OutlineOf(st.Pop(n)) == OutlineOf(st).Pop(n)
  {
    BlankIs(Blank(|st.stack|)[..|st.stack| - n]);
  }

  lemma PushOutline<T>(st: State<T>, v: T)
    ensures OutlineOf(st.Push(v)) == OutlineOf(st).Push(())
  {
    BlankIs(Blank(|st.stack|) + [()]);
  }

  /** The same instruction, in the outline. */
  ghost predicate Outlined<T>(n: nat, op: Op, st: State<T>) {
    match Shape(n, op, st)
    case None => Shape(n, op, OutlineOf(st)).None?
    case Some(next) => Shape(n, op, OutlineOf(st)) == Some(OutlineOf(next))
  }

  lemma SetOutlined<T>(n: nat, op: Op, st: State<T>)
    requires op.LocalSet? || op.LocalTee? || op.GlobalSet?
    ensures Outlined(n, op, st)
  {
    if st.stack != [] {
      PopOutline(st, 1);
      if op.i < |st.locals| {
        BlankIs(Blank(|st.locals|)[op.i := ()]);
      }
      if op.i < |st.globals| {
        BlankIs(Blank(|st.globals|)[op.i := ()]);
      }
    }
  }

  lemma ShapeOutline<T>(n: nat, op: Op, st: State<T>)
    ensures Outlined(n, op, st)
  {
    match op {
      case Br(depth) => JumpOutline(n, st, depth);
      case Return => if st.ctl != [] { JumpOutline(n, st, |st.ctl| - 1); }
      case Drop => if st.stack != [] { PopOutline(st, 1); }
      case LocalGet(i) => if i < |st.locals| { PushOutline(st, st.locals[i]); }
      case GlobalGet(i) => if i < |st.globals| { PushOutline(st, st.globals[i]); }
      case LocalSet(_) => SetOutlined(n, op, st);
      case LocalTee(_) => SetOutlined(n, op, st);
      case GlobalSet(_) => SetOutlined(n, op, st);
      case _ =>
    }
  }

  lemma TargetOutline<T>(n: nat, st: State<T>, op: Op, taken: bool)
    requires (op.If? || op.BrIf?) && |st.stack| > 0
    ensures match Target(n, st, op, taken)
      case None => Target(n, OutlineOf(st), op, taken).None?
      case Some(next) => Target(n, OutlineOf(st), op, taken) == Some(OutlineOf(next))
  {
    PopOutline(st, 1);
    if op.BrIf? && taken {
      JumpOutline(n, st.Pop(1), op.depth);
    }
  }

  /** An instruction that moves values or labels goes on in the outline. */
  lemma ShapeOnward<T>(code: seq<Op>, st: State<T>, next: State<T>)
    requires st.ctl != [] && st.pc < |code| && Moves(code[st.pc]) && Shape(|code|, code[st.pc], st) == Some(next)
    ensures Onward(code, OutlineOf(st), OutlineOf(next))
  {
    ShapeOutline(|code|, code[st.pc], st);
  }

  lemma PushOnward<T>(code: seq<Op>, st: State<T>, k: nat, v: T)
    requires st.ctl != [] && st.pc < |code| && |st.stack| >= k == Operands(code[st.pc]) && Pushes(code[st.pc])
    ensures Onward(code, OutlineOf(st), OutlineOf(st.Pop(k).Push(v)))
  {
    PopOutline(st, k);
    PushOutline(st.Pop(k), v);
  }

  lemma StoreOnward<T>(code: seq<Op>, st: State<T>)
    requires st.ctl != [] && st.pc < |code| && code[st.pc].Store? && |st.stack| >= 2
    ensures Onward(code, OutlineOf(st), OutlineOf(st.Pop(2).(pc := st.pc + 1)))
  {
    PopOutline(st, 2);
  }

  lemma TargetOnward<T>(code: seq<Op>, st: State<T>, taken: bool)
    requires st.ctl != [] && st.pc < |code| && (code[st.pc].If? || code[st.pc].BrIf?) && |st.stack| > 0
    requires Target(|code|, st, code[st.pc], taken).Some?
    ensures Onward(code, OutlineOf(st), OutlineOf(Target(|code|, st, code[st.pc], taken).value))
  {
    TargetOutline(|code|, st, code[st.pc], taken);
  }
}
