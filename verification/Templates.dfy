/**
 * Function templates for the compact circuit file: calls whose rows and witness ops are identical up to renaming
 * become calls of one template, found by hash and then compared exactly.
 */
module Templates {
  import opened Words
  import opened Regions
  import opened Renaming

  /** The flat circuit: its rows, its witness ops (a merged product has none), each variable's visibility. */
  datatype Flat = Flat(rows: seq<Item>, wits: seq<Option<Item>>, vis: seq<nat>) {
    function Size(): Mark { Mark(|rows|, |wits|, |vis|) }
  }

  function Present(ws: seq<Option<Item>>): seq<Item> {
    if ws == [] then []
    else
      var (before, w) := (Present(ws[..|ws| - 1]), ws[|ws| - 1]);
      if w.Some? then before + [w.value] else before
  }

  /** A stretch of the circuit. */
  predicate Spanning(c: Flat, lo: Mark, hi: Mark) {
    lo.NotAfter(hi) && hi.NotAfter(c.Size())
  }

  function RowsIn(c: Flat, lo: Mark, hi: Mark): seq<Item>
    requires Spanning(c, lo, hi)
  {
    c.rows[lo.rows..hi.rows]
  }

  function WitsIn(c: Flat, lo: Mark, hi: Mark): seq<Item>
    requires Spanning(c, lo, hi)
  {
    Present(c.wits[lo.wits..hi.wits])
  }

  // ----- a region's form -----

  /** Rows and witness ops with renamed variables, and how each own variable is visible. */
  datatype Shape = Shape(rows: seq<Item>, wits: seq<Item>, kinds: seq<nat>)

  function PlugsIn(c: Flat, lo: Mark, hi: Mark): seq<nat>
    requires Spanning(c, lo, hi)
  {
    Plugs(Plugs([], lo.vars, AllVars(RowsIn(c, lo, hi))), lo.vars, AllVars(WitsIn(c, lo, hi)))
  }

  function ShapeIn(c: Flat, lo: Mark, hi: Mark): Shape
    requires Spanning(c, lo, hi)
  {
    var f := Coder(lo.vars, hi.vars, PlugsIn(c, lo, hi));
    Shape(RenameAll(RowsIn(c, lo, hi), f), RenameAll(WitsIn(c, lo, hi), f), c.vis[lo.vars..hi.vars])
  }

  /** Nothing in the stretch mentions a later variable. */
  predicate Nameable(c: Flat, lo: Mark, hi: Mark)
    requires Spanning(c, lo, hi)
  {
    !Late(hi.vars, AllVars(RowsIn(c, lo, hi))) && !Late(hi.vars, AllVars(WitsIn(c, lo, hi)))
  }

  method Normalized(c: Flat, lo: Mark, hi: Mark) returns (form: Option<(Shape, seq<nat>)>)
    requires Spanning(c, lo, hi)
    ensures form == if Nameable(c, lo, hi) then Some((ShapeIn(c, lo, hi), PlugsIn(c, lo, hi))) else None
  {
    hide AllVars, RenameAll, Late, Plugs, Named, Present;
    var rn := new Renamer(lo.vars, hi.vars);
    var rows := rn.MapItems(RowsIn(c, lo, hi));
    ghost var (mid, midBad) := (rn.plugs, rn.bad);
    var wits := rn.MapItems(WitsIn(c, lo, hi));
    PassesAppend(lo.vars, hi.vars, [], false, AllVars(RowsIn(c, lo, hi)), mid, midBad, AllVars(WitsIn(c, lo, hi)),
      rn.plugs, rn.bad);
    ItemsStay(lo.vars, hi.vars, mid, rn.plugs, RowsIn(c, lo, hi));
    form := if rn.bad then None else Some((Shape(rows, wits, c.vis[lo.vars..hi.vars]), rn.plugs));
  }

  /** The stretch `lo..hi` has one renamed form with `lo2..hi2`. */
  ghost predicate SameForm(c: Flat, lo: Mark, hi: Mark, lo2: Mark, hi2: Mark) {
    && Spanning(c, lo, hi) && Spanning(c, lo2, hi2) && Nameable(c, lo, hi) && Nameable(c, lo2, hi2)
    && ShapeIn(c, lo, hi).rows == ShapeIn(c, lo2, hi2).rows && ShapeIn(c, lo, hi).wits == ShapeIn(c, lo2, hi2).wits
  }

  /** The variables of `lo2..hi2`, for those of `lo..hi`. */
  function InstanceNames(c: Flat, lo: Mark, hi: Mark, lo2: Mark, hi2: Mark): Names
    requires Spanning(c, lo, hi) && Spanning(c, lo2, hi2)
  {
    Instance(lo.vars, PlugsIn(c, lo, hi), lo2.vars, PlugsIn(c, lo2, hi2))
  }

  lemma PlugsName(c: Flat, lo: Mark, hi: Mark)
    requires Spanning(c, lo, hi) && Nameable(c, lo, hi)
    ensures Closed(lo.vars, hi.vars, PlugsIn(c, lo, hi), AllVars(RowsIn(c, lo, hi)))
    ensures Closed(lo.vars, hi.vars, PlugsIn(c, lo, hi), AllVars(WitsIn(c, lo, hi)))
  {
    hide AllVars, Present, Late;
  }

  /** Same form, so each is the other with its base and plugs. */
  lemma SameFormInstance(c: Flat, lo: Mark, hi: Mark, lo2: Mark, hi2: Mark)
    requires SameForm(c, lo, hi, lo2, hi2)
    ensures RowsIn(c, lo2, hi2) == RenameAll(RowsIn(c, lo, hi), InstanceNames(c, lo, hi, lo2, hi2))
    ensures WitsIn(c, lo2, hi2) == RenameAll(WitsIn(c, lo, hi), InstanceNames(c, lo, hi, lo2, hi2))
  {
    var (p, q) := (PlugsIn(c, lo, hi), PlugsIn(c, lo2, hi2));
    PlugsName(c, lo, hi);
    PlugsName(c, lo2, hi2);
    hide AllVars, RenameAll, Late, Plugs, Present, Closed, Named, RowsIn, WitsIn, PlugsIn;
    ItemsInstance(lo.vars, hi.vars, p, lo2.vars, hi2.vars, q, RowsIn(c, lo, hi), RowsIn(c, lo2, hi2));
    ItemsInstance(lo.vars, hi.vars, p, lo2.vars, hi2.vars, q, WitsIn(c, lo, hi), WitsIn(c, lo2, hi2));
  }

  // ----- signatures -----

  /** What forms are grouped by: a hash, or the form itself. */
  datatype Digest = Hash(code: nat) | Literal(form: Shape)

  /** A form's digest, and the number of rows. */
  datatype Key = Key(digest: Digest, rows: nat)

  predicate Eligible(r: Region, maxRows: nat) {
    r.closed && MinRows <= r.Rows() <= maxRows
  }

  /** Another eligible region has as many rows, witness ops and variables. */
  predicate SizeRepeats(regions: seq<Region>, maxRows: nat, i: nat)
    requires i < |regions|
  {
    exists j :: 0 <= j < |regions| && j != i && Eligible(regions[j], maxRows) && regions[j].Rows() == regions[i].Rows()
                && regions[j].Wits() == regions[i].Wits() && regions[j].Vars() == regions[i].Vars()
  }

  ghost predicate Fits(c: Flat, regions: seq<Region>) {
    Nested(regions) && By(regions, c.Size())
  }

  lemma FitsSpan(c: Flat, regions: seq<Region>, i: nat)
    requires Fits(c, regions) && i < |regions| && regions[i].closed
    ensures Spanning(c, regions[i].start, regions[i].end)
  {
  }

  /** The key of region `i`: none when it is not worth a template or has no form. */
  ghost predicate Signs(c: Flat, regions: seq<Region>, hash: Shape -> Digest, maxRows: nat, i: nat, key: Option<Key>)
    requires i < |regions|
  {
    var r := regions[i];
    if !Eligible(r, maxRows) || !SizeRepeats(regions, maxRows, i) then key == None
    else
      && Spanning(c, r.start, r.end)
      && key == if Nameable(c, r.start, r.end) then Some(Key(hash(ShapeIn(c, r.start, r.end)), r.Rows())) else None
  }

  method Signatures(c: Flat, regions: seq<Region>, hash: Shape -> Digest, maxRows: nat) returns (sig: seq<Option<Key>>)
    requires Fits(c, regions)
    ensures |sig| == |regions| && forall i :: 0 <= i < |regions| ==> Signs(c, regions, hash, maxRows, i, sig[i])
  {
    sig := [];
    for i := 0 to |regions|
      invariant |sig| == i && forall j :: 0 <= j < i ==> Signs(c, regions, hash, maxRows, j, sig[j])
    {
      hide Fits, Nameable, ShapeIn, SizeRepeats;
      var r := regions[i];
      var key: Option<Key> := None;
      if Eligible(r, maxRows) && SizeRepeats(regions, maxRows, i) {
        FitsSpan(c, regions, i);
        var form := Normalized(c, r.start, r.end);
        if form.Some? {
          key := Some(Key(hash(form.value.0), r.Rows()));
        }
      }
      sig := sig + [key];
    }
  }

  /** The form of region `i` repeats, as far as keys tell. */
  predicate Repeats(sig: seq<Option<Key>>, i: nat)
    requires i < |sig|
  {
    sig[i].Some? && exists j :: 0 <= j < |sig| && j != i && sig[j] == sig[i]
  }

  // ----- the call tree -----

  /** The calls made by `p` among the first `n`. */
  ghost function Kids(regions: seq<Region>, p: Option<nat>, n: nat): seq<nat>
    requires n <= |regions|
  {
    if n == 0 then [] else Kids(regions, p, n - 1) + if regions[n - 1].parent == p then [n - 1] else []
  }

  lemma {:induction false} KidsRise(regions: seq<Region>, p: Option<nat>, n: nat)
    requires n <= |regions|
    ensures forall k :: 0 <= k < |Kids(regions, p, n)| ==>
      Kids(regions, p, n)[k] < n && regions[Kids(regions, p, n)[k]].parent == p
    ensures forall j, k :: 0 <= j < k < |Kids(regions, p, n)| ==> Kids(regions, p, n)[j] < Kids(regions, p, n)[k]
  {
    if n > 0 {
      KidsRise(regions, p, n - 1);
    }
  }

  method Children(regions: seq<Region>) returns (children: seq<seq<nat>>, roots: seq<nat>)
    requires Parented(regions)
    ensures |children| == |regions| && roots == Kids(regions, None, |regions|)
    ensures forall p :: 0 <= p < |regions| ==> children[p] == Kids(regions, Some(p), |regions|)
  {
    var none: seq<nat> := [];
    children, roots := seq(|regions|, _ => none), [];
    for i := 0 to |regions|
      invariant |children| == |regions| && roots == Kids(regions, None, i)
      invariant forall p :: 0 <= p < |regions| ==> children[p] == Kids(regions, Some(p), i)
    {
      match regions[i].parent
      case Some(p) => children := children[p := children[p] + [i]];
      case None => roots := roots + [i];
    }
  }

  /** The regions of `list` do not overlap. */
  ghost predicate AllApart(regions: seq<Region>, list: seq<nat>) {
    forall j, k :: 0 <= j < k < |list| ==> ApartAt(regions, list[j], list[k])
  }

  ghost predicate ApartAt(regions: seq<Region>, i: nat, j: nat) {
    i < |regions| && j < |regions| && Apart(regions[i], regions[j])
  }

  lemma KidsApart(regions: seq<Region>, p: Option<nat>)
    requires Nested(regions)
    ensures AllApart(regions, Kids(regions, p, |regions|))
    ensures forall x :: x in Kids(regions, p, |regions|) ==> x < |regions| && regions[x].parent == p
  {
    KidsRise(regions, p, |regions|);
  }

  /** What is apart from a call is apart from every call it made. */
  lemma ApartFromParts(a: Region, b: Region, part: Region)
    requires Apart(a, b) && Inside(part, b)
    ensures Apart(a, part)
  {
  }

  lemma InsideTrans(a: Region, b: Region, c: Region)
    requires Inside(a, b) && Inside(b, c)
    ensures Inside(a, c)
  {
  }

  // ----- how much is left to walk -----

  /** Heavier than all later regions together. */
  function Mass(n: nat, list: seq<nat>): nat
    requires forall k :: 0 <= k < |list| ==> list[k] < n
  {
    if list == [] then 0 else Mass(n, list[..|list| - 1]) + Pow2(n - list[|list| - 1])
  }

  lemma {:induction false} MassAppend(n: nat, a: seq<nat>, b: seq<nat>)
    requires forall k :: 0 <= k < |a| ==> a[k] < n
    requires forall k :: 0 <= k < |b| ==> b[k] < n
    ensures forall k :: 0 <= k < |a + b| ==> (a + b)[k] < n
    ensures Mass(n, a + b) == Mass(n, a) + Mass(n, b)
    decreases |b|
  {
    if b == [] {
      assert a + b == a;
    } else {
      assert (a + b)[..|a + b| - 1] == a + b[..|b| - 1];
      MassAppend(n, a, b[..|b| - 1]);
    }
  }

  lemma {:induction false} MassBelow(n: nat, list: seq<nat>, lo: nat, hi: nat)
    requires lo <= hi <= n
    requires forall k :: 0 <= k < |list| ==> lo <= list[k] < hi
    requires forall j, k :: 0 <= j < k < |list| ==> list[j] < list[k]
    ensures Mass(n, list) + Pow2(n - hi + 1) <= Pow2(n - lo + 1)
    decreases |list|
  {
    if list != [] {
      var (init, last) := (list[..|list| - 1], list[|list| - 1]);
      assert forall k :: 0 <= k < |init| ==> init[k] == list[k] < last;
      MassBelow(n, init, lo, last);
      Pow2Mono(n - hi + 1, n - last);
    } else {
      Pow2Mono(n - hi + 1, n - lo + 1);
    }
  }

  function Reverse(list: seq<nat>): (r: seq<nat>)
    ensures |r| == |list|
  {
    if list == [] then [] else [list[|list| - 1]] + Reverse(list[..|list| - 1])
  }

  lemma {:induction false} ReverseAt(list: seq<nat>, k: nat)
    requires k < |list|
    ensures Reverse(list)[k] == list[|list| - 1 - k]
  {
    if k > 0 {
      ReverseAt(list[..|list| - 1], k - 1);
    }
  }

  lemma {:induction false} ReverseMass(n: nat, list: seq<nat>)
    requires forall k :: 0 <= k < |list| ==> list[k] < n
    ensures forall k :: 0 <= k < |list| ==> Reverse(list)[k] < n
    ensures Mass(n, Reverse(list)) == Mass(n, list)
    decreases |list|
  {
    if list != [] {
      var (init, last) := (list[..|list| - 1], list[|list| - 1]);
      ReverseMass(n, init);
      assert [last][..0] == [];
      assert Mass(n, [last]) == Pow2(n - last);
      MassAppend(n, [last], Reverse(init));
    }
  }

  lemma ReverseApart(regions: seq<Region>, list: seq<nat>)
    requires AllApart(regions, list)
    ensures AllApart(regions, Reverse(list))
  {
    forall k | 0 <= k < |list|
      ensures Reverse(list)[k] == list[|list| - 1 - k]
    {
      ReverseAt(list, k);
    }
  }

  lemma ReverseMembers(list: seq<nat>)
    ensures forall x :: x in Reverse(list) ==> x in list
  {
    forall k | 0 <= k < |list|
      ensures Reverse(list)[k] in list
    {
      ReverseAt(list, k);
    }
  }
}
