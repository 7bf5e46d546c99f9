/**
 * Renaming the variables of one call's rows and witness ops: its own to offsets from its first, outside ones to
 * plugs in order of first appearance. Two calls with one renamed form are the same up to that renaming.
 */
module Renaming {
  import opened Linear

  /** A row or a witness op, as far as its variables go: what it is, the variables it defines, the forms it reads. */
  datatype Item = Item(kind: Kind, outs: seq<nat>, ins: seq<Form>)
  datatype Kind = RowOf | WitOf(op: nat, numbers: seq<nat>)

  type Names = nat -> nat

  function RenameVars(vs: seq<nat>, f: Names): (r: seq<nat>)
    ensures |r| == |vs| && forall i :: 0 <= i < |vs| ==> r[i] == f(vs[i])
  {
    seq(|vs|, i requires 0 <= i < |vs| => f(vs[i]))
  }

  function RenameTerms(ts: seq<Term>, f: Names): (r: seq<Term>)
    ensures |r| == |ts| && forall i :: 0 <= i < |ts| ==> r[i] == Term(ts[i].coeff, f(ts[i].v))
  {
    seq(|ts|, i requires 0 <= i < |ts| => Term(ts[i].coeff, f(ts[i].v)))
  }

  function RenameForm(x: Form, f: Names): Form {
    Form(x.constant, RenameTerms(x.terms, f))
  }

  function RenameForms(xs: seq<Form>, f: Names): (r: seq<Form>)
    ensures |r| == |xs|
  {
    if xs == [] then [] else RenameForms(xs[..|xs| - 1], f) + [RenameForm(xs[|xs| - 1], f)]
  }

  function Rename(x: Item, f: Names): Item {
    Item(x.kind, RenameVars(x.outs, f), RenameForms(x.ins, f))
  }

  function RenameAll(xs: seq<Item>, f: Names): (r: seq<Item>)
    ensures |r| == |xs|
  {
    if xs == [] then [] else RenameAll(xs[..|xs| - 1], f) + [Rename(xs[|xs| - 1], f)]
  }

  // ----- the variables read, in traversal order -----

  function TermVars(ts: seq<Term>): (vs: seq<nat>)
    ensures |vs| == |ts| && forall i :: 0 <= i < |ts| ==> vs[i] == ts[i].v
  {
    seq(|ts|, i requires 0 <= i < |ts| => ts[i].v)
  }

  function FormVars(xs: seq<Form>): seq<nat> {
    if xs == [] then [] else FormVars(xs[..|xs| - 1]) + TermVars(xs[|xs| - 1].terms)
  }

  function ItemVars(x: Item): seq<nat> {
    x.outs + FormVars(x.ins)
  }

  function AllVars(xs: seq<Item>): seq<nat> {
    if xs == [] then [] else AllVars(xs[..|xs| - 1]) + ItemVars(xs[|xs| - 1])
  }

  // ----- names -----

  function IndexOf(vs: seq<nat>, v: nat): (i: nat)
    ensures i <= |vs| && (i < |vs| <==> v in vs) && (i < |vs| ==> vs[i] == v)
  {
    if vs == [] then 0 else if vs[0] == v then 0 else 1 + IndexOf(vs[1..], v)
  }

  lemma {:induction false} IndexOfPrefix(vs: seq<nat>, more: seq<nat>, v: nat)
    requires v in vs && vs <= more
    ensures IndexOf(more, v) == IndexOf(vs, v)
  {
    if vs[0] != v {
      IndexOfPrefix(vs[1..], more[1..], v);
    }
  }

  /** The plugs after seeing `vs`: the variables below `v0`, in order of first appearance. */
  function Plugs(seen: seq<nat>, v0: nat, vs: seq<nat>): (r: seq<nat>)
    ensures seen <= r
    ensures forall v :: v in r <==> v in seen || (v in vs && v < v0)
    decreases |vs|
  {
    if vs == [] then seen
    else
      assert vs == vs[..|vs| - 1] + [vs[|vs| - 1]];
      var (before, v) := (Plugs(seen, v0, vs[..|vs| - 1]), vs[|vs| - 1]);
      if v < v0 && v !in before then before + [v] else before
  }

  lemma {:induction false} PlugsAppend(seen: seq<nat>, v0: nat, a: seq<nat>, b: seq<nat>)
    ensures Plugs(seen, v0, a + b) == Plugs(Plugs(seen, v0, a), v0, b)
    decreases |b|
  {
    if b == [] {
      assert a + b == a;
    } else {
      assert (a + b)[..|a + b| - 1] == a + b[..|b| - 1];
      PlugsAppend(seen, v0, a, b[..|b| - 1]);
    }
  }

  /** A region's own variables are `v0` up to `v1`; a later one has no name. */
  function Code(v0: nat, v1: nat, plugs: seq<nat>, v: nat): nat {
    if v >= v1 then 0 else if v >= v0 then 2 * (v - v0) else 2 * IndexOf(plugs, v) + 1
  }

  function Coder(v0: nat, v1: nat, plugs: seq<nat>): Names {
    (v: nat) => Code(v0, v1, plugs, v)
  }

  ghost predicate Named(v0: nat, v1: nat, plugs: seq<nat>, vs: seq<nat>) {
    forall v :: v in vs ==> v0 <= v || v in plugs
  }

  predicate Late(v1: nat, vs: seq<nat>) {
    exists v :: v in vs && v >= v1
  }

  lemma LateAppend(v1: nat, a: seq<nat>, b: seq<nat>)
    ensures Late(v1, a + b) <==> Late(v1, a) || Late(v1, b)
  {
    assert forall v :: v in a + b <==> v in a || v in b;
    if Late(v1, a) {
      var v :| v in a && v >= v1;
      assert v in a + b;
    }
    if Late(v1, b) {
      var v :| v in b && v >= v1;
      assert v in a + b;
    }
  }

  lemma LateOne(v1: nat, v: nat)
    ensures Late(v1, [v]) <==> v >= v1
  {
    assert v in [v];
  }

  /** Names stay as plugs are added. */
  lemma CodeStays(v0: nat, v1: nat, plugs: seq<nat>, more: seq<nat>, v: nat)
    requires plugs <= more && (v0 <= v || v in plugs)
    ensures Code(v0, v1, more, v) == Code(v0, v1, plugs, v)
  {
    if v < v0 {
      IndexOfPrefix(plugs, more, v);
    }
  }

  lemma TermsStay(v0: nat, v1: nat, plugs: seq<nat>, more: seq<nat>, ts: seq<Term>)
    requires plugs <= more && Named(v0, v1, plugs, TermVars(ts))
    ensures RenameTerms(ts, Coder(v0, v1, more)) == RenameTerms(ts, Coder(v0, v1, plugs))
    ensures Named(v0, v1, more, TermVars(ts))
  {
    forall i | 0 <= i < |ts|
      ensures Code(v0, v1, more, ts[i].v) == Code(v0, v1, plugs, ts[i].v)
    {
      assert TermVars(ts)[i] in TermVars(ts);
      CodeStays(v0, v1, plugs, more, ts[i].v);
    }
  }

  lemma VarsStay(v0: nat, v1: nat, plugs: seq<nat>, more: seq<nat>, vs: seq<nat>)
    requires plugs <= more && Named(v0, v1, plugs, vs)
    ensures RenameVars(vs, Coder(v0, v1, more)) == RenameVars(vs, Coder(v0, v1, plugs))
    ensures Named(v0, v1, more, vs)
  {
    forall i | 0 <= i < |vs|
      ensures Code(v0, v1, more, vs[i]) == Code(v0, v1, plugs, vs[i])
    {
      assert vs[i] in vs;
      CodeStays(v0, v1, plugs, more, vs[i]);
    }
  }

  lemma {:induction false} FormsStay(v0: nat, v1: nat, plugs: seq<nat>, more: seq<nat>, xs: seq<Form>)
    requires plugs <= more && Named(v0, v1, plugs, FormVars(xs))
    ensures RenameForms(xs, Coder(v0, v1, more)) == RenameForms(xs, Coder(v0, v1, plugs))
    ensures Named(v0, v1, more, FormVars(xs))
    decreases |xs|
  {
    if xs != [] {
      var (init, last) := (xs[..|xs| - 1], xs[|xs| - 1]);
      NamedSplit(v0, v1, plugs, FormVars(init), TermVars(last.terms));
      FormsStay(v0, v1, plugs, more, init);
      TermsStay(v0, v1, plugs, more, last.terms);
      NamedSplit(v0, v1, more, FormVars(init), TermVars(last.terms));
      FormsSnoc(init, last, Coder(v0, v1, plugs));
      FormsSnoc(init, last, Coder(v0, v1, more));
      assert xs == init + [last];
    }
  }

  lemma FormsSnoc(xs: seq<Form>, x: Form, f: Names)
    ensures RenameForms(xs + [x], f) == RenameForms(xs, f) + [RenameForm(x, f)]
    ensures FormVars(xs + [x]) == FormVars(xs) + TermVars(x.terms)
  {
    assert (xs + [x])[..|xs|] == xs;
  }

  lemma NamedSplit(v0: nat, v1: nat, plugs: seq<nat>, a: seq<nat>, b: seq<nat>)
    ensures Named(v0, v1, plugs, a + b) <==> Named(v0, v1, plugs, a) && Named(v0, v1, plugs, b)
  {
    assert forall v :: v in a + b <==> v in a || v in b;
  }

  lemma ItemStays(v0: nat, v1: nat, plugs: seq<nat>, more: seq<nat>, x: Item)
    requires plugs <= more && Named(v0, v1, plugs, ItemVars(x))
    ensures Rename(x, Coder(v0, v1, more)) == Rename(x, Coder(v0, v1, plugs))
    ensures Named(v0, v1, more, ItemVars(x))
  {
    NamedSplit(v0, v1, plugs, x.outs, FormVars(x.ins));
    VarsStay(v0, v1, plugs, more, x.outs);
    FormsStay(v0, v1, plugs, more, x.ins);
    NamedSplit(v0, v1, more, x.outs, FormVars(x.ins));
  }

  lemma ItemsSnoc(xs: seq<Item>, x: Item, f: Names)
    ensures RenameAll(xs + [x], f) == RenameAll(xs, f) + [Rename(x, f)]
    ensures AllVars(xs + [x]) == AllVars(xs) + ItemVars(x)
  {
    assert (xs + [x])[..|xs|] == xs;
  }

  lemma {:induction false} ItemsStay(v0: nat, v1: nat, plugs: seq<nat>, more: seq<nat>, xs: seq<Item>)
    requires plugs <= more && Named(v0, v1, plugs, AllVars(xs))
    ensures RenameAll(xs, Coder(v0, v1, more)) == RenameAll(xs, Coder(v0, v1, plugs))
    ensures Named(v0, v1, more, AllVars(xs))
    decreases |xs|
  {
    if xs != [] {
      var (init, last) := (xs[..|xs| - 1], xs[|xs| - 1]);
      NamedSplit(v0, v1, plugs, AllVars(init), ItemVars(last));
      ItemsStay(v0, v1, plugs, more, init);
      ItemStays(v0, v1, plugs, more, last);
      NamedSplit(v0, v1, more, AllVars(init), ItemVars(last));
      ItemsSnoc(init, last, Coder(v0, v1, plugs));
      ItemsSnoc(init, last, Coder(v0, v1, more));
      assert xs == init + [last];
    }
  }

  // ----- the renamer -----

  /** From plugs `seen` and flag `was`, the traversal of `vs` leads to `plugs` and `bad`. */
  ghost predicate Passes(v0: nat, v1: nat, seen: seq<nat>, was: bool, vs: seq<nat>, plugs: seq<nat>, bad: bool) {
    plugs == Plugs(seen, v0, vs) && bad == (was || Late(v1, vs)) && Named(v0, v1, plugs, vs)
  }

  lemma PassesNone(v0: nat, v1: nat, seen: seq<nat>, was: bool)
    ensures Passes(v0, v1, seen, was, [], seen, was)
  {
  }

  lemma PassesAppend(v0: nat, v1: nat, seen: seq<nat>, was: bool, a: seq<nat>, mid: seq<nat>, midBad: bool, b: seq<nat>,
                     plugs: seq<nat>, bad: bool)
    requires Passes(v0, v1, seen, was, a, mid, midBad) && Passes(v0, v1, mid, midBad, b, plugs, bad)
    ensures Passes(v0, v1, seen, was, a + b, plugs, bad) && mid <= plugs && seen <= plugs
  {
    PlugsAppend(seen, v0, a, b);
    LateAppend(v1, a, b);
    VarsStay(v0, v1, mid, plugs, a);
    NamedSplit(v0, v1, plugs, a, b);
  }

  class Renamer {
    const v0: nat
    const v1: nat
    var plugs: seq<nat>
    var plugOf: map<nat, nat>
    var bad: bool

    ghost predicate Valid()
      reads this
    {
      && v0 <= v1
      && (forall v :: v in plugOf <==> v in plugs)
      && (forall v :: v in plugOf ==> plugOf[v] == IndexOf(plugs, v))
    }

    /** Where the traversal of `vs` leads from here. */
    ghost predicate At(seen: seq<nat>, was: bool, vs: seq<nat>)
      reads this
    {
      Valid() && Passes(v0, v1, seen, was, vs, plugs, bad)
    }

    function Name(): Names
      reads this
    {
      Coder(v0, v1, plugs)
    }

    constructor (v0: nat, v1: nat)
      requires v0 <= v1
      ensures Valid() && this.v0 == v0 && this.v1 == v1 && plugs == [] && !bad
    {
      this.v0, this.v1, plugs, plugOf, bad := v0, v1, [], map[], false;
    }

    method Map(v: nat) returns (name: nat)
      requires Valid()
      modifies this
      ensures At(old(plugs), old(bad), [v]) && name == Code(v0, v1, plugs, v)
    {
      assert [v][..0] == [];
      LateOne(v1, v);
      if v >= v1 {
        bad := true;
        return 0;
      }
      if v >= v0 {
        return 2 * (v - v0);
      }
      if v !in plugOf {
        NewPlug(plugs, v);
        plugs, plugOf := plugs + [v], plugOf[v := |plugs|];
      }
      return 2 * plugOf[v] + 1;
    }

    method MapVars(vs: seq<nat>) returns (r: seq<nat>)
      requires Valid()
      modifies this
      ensures At(old(plugs), old(bad), vs) && r == RenameVars(vs, Name())
    {
      hide Passes, Code, Plugs, Late, IndexOf;
      r := [];
      PassesNone(v0, v1, plugs, bad);
      for i := 0 to |vs|
        invariant At(old(plugs), old(bad), vs[..i]) && r == RenameVars(vs[..i], Name())
      {
        hide RenameVars;
        ghost var (mid, midBad) := (plugs, bad);
        var name := Map(vs[i]);
        PassesAppend(v0, v1, old(plugs), old(bad), vs[..i], mid, midBad, [vs[i]], plugs, bad);
        NamedAt(v0, v1, old(plugs), old(bad), vs[..i], mid, midBad);
        VarsStay(v0, v1, mid, plugs, vs[..i]);
        assert vs[..i + 1] == vs[..i] + [vs[i]];
        VarsSnoc(vs[..i], vs[i], Name());
        r := r + [name];
      }
      assert vs[..|vs|] == vs;
    }

    method MapTerms(ts: seq<Term>) returns (r: seq<Term>)
      requires Valid()
      modifies this
      ensures At(old(plugs), old(bad), TermVars(ts)) && r == RenameTerms(ts, Name())
    {
      hide Passes, Code, Plugs, Late, IndexOf;
      r := [];
      PassesNone(v0, v1, plugs, bad);
      for i := 0 to |ts|
        invariant At(old(plugs), old(bad), TermVars(ts[..i])) && r == RenameTerms(ts[..i], Name())
      {
        hide RenameTerms, TermVars;
        ghost var (mid, midBad) := (plugs, bad);
        var name := Map(ts[i].v);
        PassesAppend(v0, v1, old(plugs), old(bad), TermVars(ts[..i]), mid, midBad, [ts[i].v], plugs, bad);
        NamedAt(v0, v1, old(plugs), old(bad), TermVars(ts[..i]), mid, midBad);
        TermsStay(v0, v1, mid, plugs, ts[..i]);
        assert ts[..i + 1] == ts[..i] + [ts[i]];
        TermsSnoc(ts[..i], ts[i], Name());
        r := r + [Term(ts[i].coeff, name)];
      }
      assert ts[..|ts|] == ts;
    }

    method MapForms(xs: seq<Form>) returns (r: seq<Form>)
      requires Valid()
      modifies this
      ensures At(old(plugs), old(bad), FormVars(xs)) && r == RenameForms(xs, Name())
    {
      hide Passes, Plugs;
      r := [];
      PassesNone(v0, v1, plugs, bad);
      for i := 0 to |xs|
        invariant At(old(plugs), old(bad), FormVars(xs[..i])) && r == RenameForms(xs[..i], Name())
      {
        hide RenameTerms, TermVars, RenameForms, FormVars;
        ghost var (mid, midBad) := (plugs, bad);
        var terms := MapTerms(xs[i].terms);
        PassesAppend(v0, v1, old(plugs), old(bad), FormVars(xs[..i]), mid, midBad, TermVars(xs[i].terms), plugs, bad);
        NamedAt(v0, v1, old(plugs), old(bad), FormVars(xs[..i]), mid, midBad);
        FormsStay(v0, v1, mid, plugs, xs[..i]);
        assert xs[..i + 1] == xs[..i] + [xs[i]];
        FormsSnoc(xs[..i], xs[i], Name());
        r := r + [Form(xs[i].constant, terms)];
      }
      assert xs[..|xs|] == xs;
    }

    method MapItem(x: Item) returns (r: Item)
      requires Valid()
      modifies this
      ensures At(old(plugs), old(bad), ItemVars(x)) && r == Rename(x, Name())
    {
      hide Passes;
      var outs := MapVars(x.outs);
      ghost var (mid, midBad) := (plugs, bad);
      var ins := MapForms(x.ins);
      PassesAppend(v0, v1, old(plugs), old(bad), x.outs, mid, midBad, FormVars(x.ins), plugs, bad);
      NamedAt(v0, v1, old(plugs), old(bad), x.outs, mid, midBad);
      VarsStay(v0, v1, mid, plugs, x.outs);
      r := Item(x.kind, outs, ins);
    }

    method MapItems(xs: seq<Item>) returns (r: seq<Item>)
      requires Valid()
      modifies this
      ensures At(old(plugs), old(bad), AllVars(xs)) && r == RenameAll(xs, Name())
    {
      hide Passes;
      r := [];
      PassesNone(v0, v1, plugs, bad);
      for i := 0 to |xs|
        invariant At(old(plugs), old(bad), AllVars(xs[..i])) && r == RenameAll(xs[..i], Name())
      {
        hide RenameAll, AllVars;
        ghost var (mid, midBad) := (plugs, bad);
        var x := MapItem(xs[i]);
        PassesAppend(v0, v1, old(plugs), old(bad), AllVars(xs[..i]), mid, midBad, ItemVars(xs[i]), plugs, bad);
        NamedAt(v0, v1, old(plugs), old(bad), AllVars(xs[..i]), mid, midBad);
        ItemsStay(v0, v1, mid, plugs, xs[..i]);
        assert xs[..i + 1] == xs[..i] + [xs[i]];
        ItemsSnoc(xs[..i], xs[i], Name());
        r := r + [x];
      }
      assert xs[..|xs|] == xs;
    }
  }

  lemma NamedAt(v0: nat, v1: nat, seen: seq<nat>, was: bool, vs: seq<nat>, plugs: seq<nat>, bad: bool)
    requires Passes(v0, v1, seen, was, vs, plugs, bad)
    ensures Named(v0, v1, plugs, vs)
  {
  }

  lemma VarsSnoc(vs: seq<nat>, v: nat, f: Names)
    ensures RenameVars(vs + [v], f) == RenameVars(vs, f) + [f(v)]
  {
  }

  lemma TermsSnoc(ts: seq<Term>, t: Term, f: Names)
    ensures RenameTerms(ts + [t], f) == RenameTerms(ts, f) + [Term(t.coeff, f(t.v))]
    ensures TermVars(ts + [t]) == TermVars(ts) + [t.v]
  {
  }

  lemma NewPlug(plugs: seq<nat>, v: nat)
    requires v !in plugs
    ensures IndexOf(plugs + [v], v) == |plugs|
    ensures forall u :: u in plugs ==> IndexOf(plugs + [v], u) == IndexOf(plugs, u)
  {
    var more := plugs + [v];
    assert more[|plugs|] == v;
    forall u | u in plugs
      ensures IndexOf(more, u) == IndexOf(plugs, u)
    {
      IndexOfPrefix(plugs, more, u);
    }
  }

  // ----- two calls with one form -----

  /** The names of one call's variables, from another's: own variables by offset, plugs by position. */
  function Instance(v0: nat, plugs: seq<nat>, base: nat, args: seq<nat>): Names {
    (v: nat) =>
      if v >= v0 then base + (v - v0)
      else var i := IndexOf(plugs, v); if i < |args| then args[i] else 0
  }

  lemma EvenOdd(i: int, j: int)
    ensures 2 * i != 2 * j + 1
  {
  }

  /** A code says which variable it stands for. */
  lemma CodeInverse(v0: nat, v1: nat, plugs: seq<nat>, base: nat, end: nat, args: seq<nat>, v: nat, w: nat)
    requires v < v1 && (v0 <= v || v in plugs) && w < end && (base <= w || w in args)
    requires Code(v0, v1, plugs, v) == Code(base, end, args, w)
    ensures w == Instance(v0, plugs, base, args)(v)
  {
    EvenOdd(if v >= v0 then v - v0 else w - base, if v >= v0 then IndexOf(args, w) else IndexOf(plugs, v));
  }

  /** The variables `vs` all have names. */
  ghost predicate Closed(v0: nat, v1: nat, plugs: seq<nat>, vs: seq<nat>) {
    Named(v0, v1, plugs, vs) && !Late(v1, vs)
  }

  lemma ClosedSplit(v0: nat, v1: nat, plugs: seq<nat>, a: seq<nat>, b: seq<nat>)
    ensures Closed(v0, v1, plugs, a + b) <==> Closed(v0, v1, plugs, a) && Closed(v0, v1, plugs, b)
  {
    NamedSplit(v0, v1, plugs, a, b);
    LateAppend(v1, a, b);
  }

  lemma VarsInstance(v0: nat, v1: nat, plugs: seq<nat>, base: nat, end: nat, args: seq<nat>, vs: seq<nat>, ws: seq<nat>)
    requires Closed(v0, v1, plugs, vs) && Closed(base, end, args, ws)
    requires RenameVars(vs, Coder(v0, v1, plugs)) == RenameVars(ws, Coder(base, end, args))
    ensures ws == RenameVars(vs, Instance(v0, plugs, base, args))
  {
    var (a, b) := (RenameVars(vs, Coder(v0, v1, plugs)), RenameVars(ws, Coder(base, end, args)));
    forall i | 0 <= i < |ws|
      ensures ws[i] == Instance(v0, plugs, base, args)(vs[i])
    {
      assert vs[i] in vs && ws[i] in ws && a[i] == b[i];
      CodeInverse(v0, v1, plugs, base, end, args, vs[i], ws[i]);
    }
  }

  lemma TermsInstance(v0: nat, v1: nat, plugs: seq<nat>, base: nat, end: nat, args: seq<nat>, ts: seq<Term>,
                      us: seq<Term>)
    requires Closed(v0, v1, plugs, TermVars(ts)) && Closed(base, end, args, TermVars(us))
    requires RenameTerms(ts, Coder(v0, v1, plugs)) == RenameTerms(us, Coder(base, end, args))
    ensures us == RenameTerms(ts, Instance(v0, plugs, base, args))
  {
    var (a, b) := (RenameTerms(ts, Coder(v0, v1, plugs)), RenameTerms(us, Coder(base, end, args)));
    forall i | 0 <= i < |us|
      ensures us[i] == Term(ts[i].coeff, Instance(v0, plugs, base, args)(ts[i].v))
    {
      assert TermVars(ts)[i] in TermVars(ts) && TermVars(us)[i] in TermVars(us) && a[i] == b[i];
      CodeInverse(v0, v1, plugs, base, end, args, ts[i].v, us[i].v);
    }
  }

  lemma {:induction false} SameEnds<T>(a: seq<T>, x: T, b: seq<T>, y: T)
    requires a + [x] == b + [y]
    ensures a == b && x == y
  {
    assert |a + [x]| == |b + [y]| && (a + [x])[|a|] == (b + [y])[|b|];
    assert a == (a + [x])[..|a|] && b == (b + [y])[..|b|];
  }

  lemma FormsLast(xs: seq<Form>, ys: seq<Form>, f: Names, g: Names)
    requires xs != [] && RenameForms(xs, f) == RenameForms(ys, g)
    ensures |ys| == |xs|
    ensures var n := |xs| - 1;
      && RenameForms(xs[..n], f) == RenameForms(ys[..n], g) && RenameForm(xs[n], f) == RenameForm(ys[n], g)
      && FormVars(xs) == FormVars(xs[..n]) + TermVars(xs[n].terms)
        && FormVars(ys) == FormVars(ys[..n]) + TermVars(ys[n].terms)
  {
    var n := |xs| - 1;
    assert |RenameForms(xs, f)| == |RenameForms(ys, g)|;
    SameEnds(RenameForms(xs[..n], f), RenameForm(xs[n], f), RenameForms(ys[..n], g), RenameForm(ys[n], g));
  }

  lemma {:induction false} FormsInstance(v0: nat, v1: nat, plugs: seq<nat>, base: nat, end: nat, args: seq<nat>,
                                         xs: seq<Form>, ys: seq<Form>)
    requires Closed(v0, v1, plugs, FormVars(xs)) && Closed(base, end, args, FormVars(ys))
    requires RenameForms(xs, Coder(v0, v1, plugs)) == RenameForms(ys, Coder(base, end, args))
    ensures ys == RenameForms(xs, Instance(v0, plugs, base, args))
    decreases |xs|
  {
    var (f, g) := (Coder(v0, v1, plugs), Coder(base, end, args));
    if xs != [] {
      FormsLast(xs, ys, f, g);
      hide RenameForms, RenameForm, FormVars, TermVars, Closed, Named, Late;
      var (x, y, n) := (xs[|xs| - 1], ys[|ys| - 1], |xs| - 1);
      ClosedSplit(v0, v1, plugs, FormVars(xs[..n]), TermVars(x.terms));
      ClosedSplit(base, end, args, FormVars(ys[..n]), TermVars(y.terms));
      FormsInstance(v0, v1, plugs, base, end, args, xs[..n], ys[..n]);
      TermsInstance(v0, v1, plugs, base, end, args, x.terms, y.terms);
      assert xs == xs[..n] + [x] && ys == ys[..n] + [y];
      FormsSnoc(xs[..n], x, Instance(v0, plugs, base, args));
    } else {
      assert |RenameForms(xs, f)| == |ys|;
    }
  }

  lemma ItemInstance(v0: nat, v1: nat, plugs: seq<nat>, base: nat, end: nat, args: seq<nat>, x: Item, y: Item)
    requires Closed(v0, v1, plugs, ItemVars(x)) && Closed(base, end, args, ItemVars(y))
    requires Rename(x, Coder(v0, v1, plugs)) == Rename(y, Coder(base, end, args))
    ensures y == Rename(x, Instance(v0, plugs, base, args))
  {
    ClosedSplit(v0, v1, plugs, x.outs, FormVars(x.ins));
    ClosedSplit(base, end, args, y.outs, FormVars(y.ins));
    VarsInstance(v0, v1, plugs, base, end, args, x.outs, y.outs);
    FormsInstance(v0, v1, plugs, base, end, args, x.ins, y.ins);
  }

  lemma ItemsLast(xs: seq<Item>, ys: seq<Item>, f: Names, g: Names)
    requires xs != [] && RenameAll(xs, f) == RenameAll(ys, g)
    ensures |ys| == |xs|
    ensures var n := |xs| - 1;
      && RenameAll(xs[..n], f) == RenameAll(ys[..n], g) && Rename(xs[n], f) == Rename(ys[n], g)
      && AllVars(xs) == AllVars(xs[..n]) + ItemVars(xs[n]) && AllVars(ys) == AllVars(ys[..n]) + ItemVars(ys[n])
  {
    var n := |xs| - 1;
    assert |RenameAll(xs, f)| == |RenameAll(ys, g)|;
    SameEnds(RenameAll(xs[..n], f), Rename(xs[n], f), RenameAll(ys[..n], g), Rename(ys[n], g));
  }

  /** Items with one renamed form are each other's instances. */
  lemma {:induction false} ItemsInstance(v0: nat, v1: nat, plugs: seq<nat>, base: nat, end: nat, args: seq<nat>,
                                         xs: seq<Item>, ys: seq<Item>)
    requires Closed(v0, v1, plugs, AllVars(xs)) && Closed(base, end, args, AllVars(ys))
    requires RenameAll(xs, Coder(v0, v1, plugs)) == RenameAll(ys, Coder(base, end, args))
    ensures ys == RenameAll(xs, Instance(v0, plugs, base, args))
    decreases |xs|
  {
    var (f, g) := (Coder(v0, v1, plugs), Coder(base, end, args));
    if xs != [] {
      ItemsLast(xs, ys, f, g);
      hide RenameAll, Rename, AllVars, ItemVars, Closed, Named, Late;
      var (x, y, n) := (xs[|xs| - 1], ys[|ys| - 1], |xs| - 1);
      ClosedSplit(v0, v1, plugs, AllVars(xs[..n]), ItemVars(x));
      ClosedSplit(base, end, args, AllVars(ys[..n]), ItemVars(y));
      ItemsInstance(v0, v1, plugs, base, end, args, xs[..n], ys[..n]);
      ItemInstance(v0, v1, plugs, base, end, args, x, y);
      assert xs == xs[..n] + [x] && ys == ys[..n] + [y];
      ItemsSnoc(xs[..n], x, Instance(v0, plugs, base, args));
    } else {
      assert |RenameAll(xs, f)| == |ys|;
    }
  }

  /** Renaming twice is renaming by the composition. */
  lemma {:induction false} RenameTwice(xs: seq<Item>, f: Names, g: Names, h: Names)
    requires forall v: nat :: h(v) == g(f(v))
    ensures RenameAll(RenameAll(xs, f), g) == RenameAll(xs, h)
    decreases |xs|
  {
    if xs != [] {
      var (init, x) := (xs[..|xs| - 1], xs[|xs| - 1]);
      RenameTwice(init, f, g, h);
      FormsTwice(x.ins, f, g, h);
      assert RenameVars(RenameVars(x.outs, f), g) == RenameVars(x.outs, h);
      ItemsSnoc(RenameAll(init, f), Rename(x, f), g);
    }
  }

  lemma {:induction false} FormsTwice(xs: seq<Form>, f: Names, g: Names, h: Names)
    requires forall v: nat :: h(v) == g(f(v))
    ensures RenameForms(RenameForms(xs, f), g) == RenameForms(xs, h)
    decreases |xs|
  {
    if xs != [] {
      var (init, x) := (xs[..|xs| - 1], xs[|xs| - 1]);
      FormsTwice(init, f, g, h);
      assert RenameTerms(RenameTerms(x.terms, f), g) == RenameTerms(x.terms, h);
      FormsSnoc(RenameForms(init, f), RenameForm(x, f), g);
    }
  }

  lemma {:induction false} RenameSame(xs: seq<Item>, f: Names)
    requires forall v: nat :: f(v) == v
    ensures RenameAll(xs, f) == xs
    decreases |xs|
  {
    if xs != [] {
      var x := xs[|xs| - 1];
      RenameSame(xs[..|xs| - 1], f);
      FormsSame(x.ins, f);
      assert RenameVars(x.outs, f) == x.outs;
    }
  }

  lemma {:induction false} FormsSame(xs: seq<Form>, f: Names)
    requires forall v: nat :: f(v) == v
    ensures RenameForms(xs, f) == xs
    decreases |xs|
  {
    if xs != [] {
      FormsSame(xs[..|xs| - 1], f);
      assert RenameTerms(xs[|xs| - 1].terms, f) == xs[|xs| - 1].terms;
    }
  }

  lemma {:induction false} RenameAppend(xs: seq<Item>, ys: seq<Item>, f: Names)
    ensures RenameAll(xs + ys, f) == RenameAll(xs, f) + RenameAll(ys, f)
    decreases |ys|
  {
    if ys == [] {
      assert xs + ys == xs;
    } else {
      assert (xs + ys)[..|xs + ys| - 1] == xs + ys[..|ys| - 1];
      RenameAppend(xs, ys[..|ys| - 1], f);
    }
  }
}
