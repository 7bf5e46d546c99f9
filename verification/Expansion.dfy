/** The compact circuit expands to the flat one: every call is its template with the call's base and plugs, calls of
    one scope do not overlap, and no template reaches itself. */
module Expansion {
  import opened Words
  import opened Regions
  import opened Renaming
  import opened Templates
  import opened Detection

  /** Keys tell variable counts apart: hashes cover the count, and forms contain it. */
  ghost predicate KeysFixVars(regions: seq<Region>, sig: seq<Option<Key>>)
    requires |sig| == |regions|
  {
    forall i, j :: 0 <= i < |regions| && 0 <= j < |regions| && sig[i].Some? && sig[i] == sig[j] ==>
      regions[i].Vars() == regions[j].Vars()
  }

  /** How large a stretch is: rows, then variables, then witness ops. */
  ghost predicate Smaller(c: Flat, lo: Mark, hi: Mark, lo2: Mark, hi2: Mark)
    requires Spanning(c, lo, hi) && Spanning(c, lo2, hi2)
  {
    var (r, r2) := (hi.rows - lo.rows, hi2.rows - lo2.rows);
    var (v, v2) := (hi.vars - lo.vars, hi2.vars - lo2.vars);
    var (w, w2) := (|WitsIn(c, lo, hi)|, |WitsIn(c, lo2, hi2)|);
    r < r2 || (r == r2 && (v < v2 || (v == v2 && w < w2)))
  }

  lemma {:induction false} PresentAppend(a: seq<Option<Item>>, b: seq<Option<Item>>)
    ensures Present(a + b) == Present(a) + Present(b)
    decreases |b|
  {
    if b == [] {
      assert a + b == a;
    } else {
      assert (a + b)[..|a + b| - 1] == a + b[..|b| - 1];
      PresentAppend(a, b[..|b| - 1]);
    }
  }

  lemma PresentSlice(ws: seq<Option<Item>>, i: nat, j: nat, k: nat, l: nat)
    requires i <= j <= k <= l <= |ws|
    ensures Present(ws[i..l]) == Present(ws[i..j]) + Present(ws[j..k]) + Present(ws[k..l])
  {
    assert ws[i..l] == ws[i..j] + (ws[j..k] + ws[k..l]);
    PresentAppend(ws[i..j], ws[j..k] + ws[k..l]);
    PresentAppend(ws[j..k], ws[k..l]);
  }

  /** A part as large as the whole is the whole. */
  lemma SameSizeSameShape(c: Flat, lo: Mark, hi: Mark, lo2: Mark, hi2: Mark)
    requires Spanning(c, lo, hi) && Spanning(c, lo2, hi2) && lo2.NotAfter(lo) && hi.NotAfter(hi2)
    requires !Smaller(c, lo, hi, lo2, hi2)
    ensures RowsIn(c, lo, hi) == RowsIn(c, lo2, hi2) && WitsIn(c, lo, hi) == WitsIn(c, lo2, hi2)
    ensures lo.vars == lo2.vars && hi.vars == hi2.vars && ShapeIn(c, lo, hi) == ShapeIn(c, lo2, hi2)
  {
    PresentSlice(c.wits, lo2.wits, lo.wits, hi.wits, hi2.wits);
    assert |WitsIn(c, lo, hi)| <= |WitsIn(c, lo2, hi2)|;
    assert WitsIn(c, lo, hi) == WitsIn(c, lo2, hi2);
  }

  /** The template of a call in the body of another template is smaller than that one. */
  lemma CalleeSmaller(c: Flat, regions: seq<Region>, hash: Shape -> Digest, maxRows: nat, sig: seq<Option<Key>>,
                      bad: set<nat>, plan: Plan, templates: seq<Template>, calls: seq<Call>, k: nat)
    requires Signed(c, regions, hash, maxRows, sig) && Found(c, regions, sig, bad, plan, templates, calls)
    requires KeysFixVars(regions, sig) && k < |calls| && calls[k].parent.Some?
    ensures calls[k].def < |templates| && calls[k].parent.value < |templates|
    ensures var (t, p) := (templates[calls[k].def], templates[calls[k].parent.value]);
      Spanning(c, t.start, t.end) && Spanning(c, p.start, p.end) && Smaller(c, t.start, t.end, p.start, p.end)
  {
    var e := plan.entries[k];
    EntryRegions(c, regions, sig, bad, plan, templates, calls, k);
    var (f, g) := (plan.firsts[e.def], plan.firsts[e.parent.value]);
    hide Found, PlanOk, Exact;
    SignedNamed(c, regions, hash, maxRows, sig, e.region);
    SignedNamed(c, regions, hash, maxRows, sig, f);
    SignedNamed(c, regions, hash, maxRows, sig, g);
    assert regions[f].Vars() == regions[e.region].Vars();
    hide *;
    SmallerPart(c, regions[f], regions[e.region], regions[g]);
  }

  /** The regions behind call `k`: its template's first, its own, and that of the template it is in. */
  lemma EntryRegions(c: Flat, regions: seq<Region>, sig: seq<Option<Key>>, bad: set<nat>, plan: Plan,
                     templates: seq<Template>, calls: seq<Call>, k: nat)
    requires |sig| == |regions| && Found(c, regions, sig, bad, plan, templates, calls) && k < |calls|
      && calls[k].parent.Some?
    ensures var e := plan.entries[k];
      && calls[k].def == e.def < |plan.firsts| == |templates| && calls[k].parent == e.parent
        && e.parent.value < |plan.firsts|
      && var (f, g, i) := (plan.firsts[e.def], plan.firsts[e.parent.value], e.region);
         && f < |regions| && g < |regions| && i < |regions|
         && TemplateOf(c, regions[f], templates[e.def]) && TemplateOf(c, regions[g], templates[e.parent.value])
         && SameForm(c, regions[f].start, regions[f].end, regions[i].start, regions[i].end)
         && Inside(regions[i], regions[g]) && sig[i].Some? && sig[f] == sig[i] != sig[g] && sig[g].Some?
  {
    var e := plan.entries[k];
    hide Signed, SameForm, TemplateOf;
    assert EntryOk(regions, sig, bad, plan.firsts, e) && CallOf(c, regions, plan, e, calls[k]);
  }

  /** A call of another form in the body of a template is smaller than that. */
  lemma SmallerPart(c: Flat, x: Region, r: Region, p: Region)
    requires SameForm(c, x.start, x.end, r.start, r.end) && Spanning(c, p.start, p.end) && p.closed && Inside(r, p)
    requires x.Vars() == r.Vars()
    requires ShapeIn(c, r.start, r.end) != ShapeIn(c, p.start, p.end)
    ensures Smaller(c, x.start, x.end, p.start, p.end)
  {
    SameSizes(c, x, r);
    hide ShapeIn, WitsIn, PlugsIn, RowsIn, Nameable;
    if !Smaller(c, r.start, r.end, p.start, p.end) {
      SameSizeSameShape(c, r.start, r.end, p.start, p.end);
    }
  }

  lemma SameSizes(c: Flat, x: Region, r: Region)
    requires SameForm(c, x.start, x.end, r.start, r.end)
    ensures x.end.rows - x.start.rows == r.end.rows - r.start.rows
    ensures |WitsIn(c, x.start, x.end)| == |WitsIn(c, r.start, r.end)|
  {
    assert |ShapeIn(c, x.start, x.end).rows| == |RowsIn(c, x.start, x.end)|;
    assert |ShapeIn(c, r.start, r.end).rows| == |RowsIn(c, r.start, r.end)|;
    assert |ShapeIn(c, x.start, x.end).wits| == |WitsIn(c, x.start, x.end)|;
    assert |ShapeIn(c, r.start, r.end).wits| == |WitsIn(c, r.start, r.end)|;
  }

  // ----- the compact circuit -----

  /** What the compact file holds, as far as expanding it needs. */
  ghost predicate Compact(c: Flat, templates: seq<Template>, calls: seq<Call>) {
    && (forall d :: 0 <= d < |templates| ==>
          && Spanning(c, templates[d].start, templates[d].end)
          && templates[d].plugs == PlugsIn(c, templates[d].start, templates[d].end))
    && (forall k :: 0 <= k < |calls| ==> CompactCall(c, templates, calls[k]))
    && (forall j, k :: 0 <= j < k < |calls| && calls[j].parent == calls[k].parent ==>
          calls[j].end.NotAfter(calls[k].start) || calls[k].end.NotAfter(calls[j].start))
  }

  ghost predicate CompactCall(c: Flat, templates: seq<Template>, call: Call) {
    && call.def < |templates|
    && var t := templates[call.def];
       && SameForm(c, t.start, t.end, call.start, call.end)
       && call.plugs == PlugsIn(c, call.start, call.end)
       && (call.parent.Some? ==>
             && call.parent.value < |templates|
             && var p := templates[call.parent.value];
                && Spanning(c, p.start, p.end)
                && p.start.NotAfter(call.start) && call.end.NotAfter(p.end)
                  && Smaller(c, t.start, t.end, p.start, p.end))
  }

  /** The calls found make a compact circuit. */
  lemma FoundCompact(c: Flat, regions: seq<Region>, hash: Shape -> Digest, maxRows: nat, sig: seq<Option<Key>>,
                     bad: set<nat>, plan: Plan, templates: seq<Template>, calls: seq<Call>)
    requires Signed(c, regions, hash, maxRows, sig) && Found(c, regions, sig, bad, plan, templates, calls)
    requires KeysFixVars(regions, sig)
    ensures Compact(c, templates, calls)
  {
    hide ShapeIn, WitsIn, PlugsIn, RowsIn, Signed, Nameable;
    forall k | 0 <= k < |calls|
      ensures CompactCall(c, templates, calls[k])
    {
      FoundCall(c, regions, hash, maxRows, sig, bad, plan, templates, calls, k);
    }
    forall j, k | 0 <= j < k < |calls| && calls[j].parent == calls[k].parent
      ensures calls[j].end.NotAfter(calls[k].start) || calls[k].end.NotAfter(calls[j].start)
    {
      assert CallOf(c, regions, plan, plan.entries[j], calls[j]) && CallOf(c, regions, plan, plan.entries[k], calls[k]);
    }
    forall d | 0 <= d < |templates|
      ensures Spanning(c, templates[d].start, templates[d].end)
      ensures templates[d].plugs == PlugsIn(c, templates[d].start, templates[d].end)
    {
      assert TemplateOf(c, regions[plan.firsts[d]], templates[d]);
    }
  }

  lemma FoundCall(c: Flat, regions: seq<Region>, hash: Shape -> Digest, maxRows: nat, sig: seq<Option<Key>>,
                  bad: set<nat>, plan: Plan, templates: seq<Template>, calls: seq<Call>, k: nat)
    requires Signed(c, regions, hash, maxRows, sig) && Found(c, regions, sig, bad, plan, templates, calls)
    requires KeysFixVars(regions, sig) && k < |calls|
    ensures CompactCall(c, templates, calls[k])
  {
    var e := plan.entries[k];
    assert EntryOk(regions, sig, bad, plan.firsts, e) && CallOf(c, regions, plan, e, calls[k]);
    assert TemplateOf(c, regions[plan.firsts[e.def]], templates[e.def]);
    if calls[k].parent.Some? {
      CalleeSmaller(c, regions, hash, maxRows, sig, bad, plan, templates, calls, k);
      var g := plan.firsts[e.parent.value];
      assert TemplateOf(c, regions[g], templates[e.parent.value]);
      SignedNamed(c, regions, hash, maxRows, sig, g);
    }
  }

  // ----- expanding it -----

  /** Rows and witness ops are expanded alike. */
  datatype Track = Rows | Wits

  function At(t: Track, m: Mark): nat {
    if t.Rows? then m.rows else m.wits
  }

  function Slice(c: Flat, t: Track, lo: nat, hi: nat): seq<Item>
    requires lo <= hi <= At(t, c.Size())
  {
    if t.Rows? then c.rows[lo..hi] else Present(c.wits[lo..hi])
  }

  ghost predicate StartsAt(calls: seq<Call>, t: Track, scope: Option<nat>, pos: nat, k: nat) {
    k < |calls| && calls[k].parent == scope && At(t, calls[k].start) == pos < At(t, calls[k].end)
  }

  /** The call of `scope` that starts at `pos`. */
  ghost function CallAt(calls: seq<Call>, t: Track, scope: Option<nat>, pos: nat): (r: Option<nat>)
    ensures r.Some? ==> StartsAt(calls, t, scope, pos, r.value)
  {
    if k: nat :| StartsAt(calls, t, scope, pos, k) then Some(k) else None
  }

  /** The variables of call `k`'s body, for those of its template. */
  function CallNames(templates: seq<Template>, call: Call): Names
    requires call.def < |templates|
  {
    var t := templates[call.def];
    Instance(t.start.vars, t.plugs, call.start.vars, call.plugs)
  }

  function Then(f: Names, g: Names): Names {
    (v: nat) => g(f(v))
  }

  ghost function ScopeEnd(c: Flat, templates: seq<Template>, scope: Option<nat>): Mark
    requires scope.Some? ==> scope.value < |templates|
  {
    if scope.Some? then templates[scope.value].end else c.Size()
  }

  /** For termination: the size of the body being expanded. */
  ghost function BodySize(c: Flat, templates: seq<Template>, scope: Option<nat>): (nat, nat, nat)
    requires scope.Some? ==> scope.value < |templates|
  {
    match scope
    case None => (|c.rows| + 1, 0, 0)
    case Some(d) =>
      var t := templates[d];
      if Spanning(c, t.start, t.end)
        then (t.end.rows - t.start.rows, t.end.vars - t.start.vars, |WitsIn(c, t.start, t.end)|)
      else (0, 0, 0)
  }

  lemma CallShrinks(c: Flat, templates: seq<Template>, calls: seq<Call>, k: nat)
    requires Compact(c, templates, calls) && k < |calls|
    ensures var call := calls[k];
      && call.def < |templates| && (call.parent.Some? ==> call.parent.value < |templates|)
      && var (b, b') := (BodySize(c, templates, Some(call.def)), BodySize(c, templates, call.parent));
         b.0 < b'.0 || (b.0 == b'.0 && (b.1 < b'.1 || (b.1 == b'.1 && b.2 < b'.2)))
  {
    assert CompactCall(c, templates, calls[k]);
    assert Spanning(c, templates[calls[k].def].start, templates[calls[k].def].end);
  }

  /** Reading the compact circuit: the body of `scope` from `pos` on, its variables renamed by `f`; a call found there
      is
      its template's body with the call's names, and reading goes on behind the call. */
  ghost function Expand(c: Flat, templates: seq<Template>, calls: seq<Call>, t: Track, scope: Option<nat>, f: Names,
                        pos: nat): seq<Item>
    requires Compact(c, templates, calls) && (scope.Some? ==> scope.value < |templates|)
    decreases BodySize(c, templates, scope).0, BodySize(c, templates, scope).1, BodySize(c, templates, scope).2,
      At(t, ScopeEnd(c, templates, scope)) - pos
  {
    var end := At(t, ScopeEnd(c, templates, scope));
    if pos >= end || end > At(t, c.Size()) then []
    else if CallAt(calls, t, scope, pos).Some? then
      var k := CallAt(calls, t, scope, pos).value;
      CallShrinks(c, templates, calls, k);
      var body := Expand(c, templates, calls, t, Some(calls[k].def), Then(CallNames(templates, calls[k]), f),
                         At(t, templates[calls[k].def].start));
      body + Expand(c, templates, calls, t, scope, f, At(t, calls[k].end))
    else RenameAll(Slice(c, t, pos, pos + 1), f) + Expand(c, templates, calls, t, scope, f, pos + 1)
  }

  lemma SliceSplit(c: Flat, t: Track, i: nat, j: nat, k: nat)
    requires i <= j <= k <= At(t, c.Size())
    ensures Slice(c, t, i, k) == Slice(c, t, i, j) + Slice(c, t, j, k)
  {
    if t.Rows? {
      assert c.rows[i..k] == c.rows[i..j] + c.rows[j..k];
    } else {
      assert c.wits[i..k] == c.wits[i..j] + c.wits[j..k];
      PresentAppend(c.wits[i..j], c.wits[j..k]);
    }
  }

  /** A call's stretch is its template's with the call's names. */
  lemma CallBody(c: Flat, templates: seq<Template>, calls: seq<Call>, t: Track, k: nat)
    requires Compact(c, templates, calls) && k < |calls|
    ensures calls[k].def < |templates|
    ensures var (call, m) := (calls[k], templates[calls[k].def]);
      && At(t, m.start) <= At(t, m.end) <= At(t, c.Size()) && At(t, call.start) <= At(t, call.end) <= At(t, c.Size())
      && Slice(c, t, At(t, call.start), At(t, call.end))
         == RenameAll(Slice(c, t, At(t, m.start), At(t, m.end)), CallNames(templates, call))
  {
    assert CompactCall(c, templates, calls[k]);
    var (call, m) := (calls[k], templates[calls[k].def]);
    SameFormInstance(c, m.start, m.end, call.start, call.end);
  }

  ghost predicate ScopeFits(c: Flat, templates: seq<Template>, scope: Option<nat>) {
    scope.Some? ==> scope.value < |templates| && Spanning(c, templates[scope.value].start, templates[scope.value].end)
  }

  /** Expanding a body gives exactly its stretch of the flat circuit. */
  lemma {:induction false} ExpandIsFlat(c: Flat, templates: seq<Template>, calls: seq<Call>, t: Track,
                                        scope: Option<nat>, f: Names, pos: nat)
    requires Compact(c, templates, calls) && ScopeFits(c, templates, scope)
    requires pos <= At(t, ScopeEnd(c, templates, scope))
    ensures At(t, ScopeEnd(c, templates, scope)) <= At(t, c.Size())
    ensures Expand(c, templates, calls, t, scope, f, pos)
         == RenameAll(Slice(c, t, pos, At(t, ScopeEnd(c, templates, scope))), f)
    decreases BodySize(c, templates, scope).0, BodySize(c, templates, scope).1, BodySize(c, templates, scope).2,
      At(t, ScopeEnd(c, templates, scope)) - pos
  {
    hide Compact, Expand, Slice, Spanning, RenameAll, CallAt;
    var end := At(t, ScopeEnd(c, templates, scope));
    ScopeInside(c, templates, t, scope);
    if pos == end {
      EmptySlice(c, templates, calls, t, scope, f, pos);
    } else if CallAt(calls, t, scope, pos).Some? {
      var k := CallAt(calls, t, scope, pos).value;
      CallInScope(c, templates, calls, t, k);
      CallExpands(c, templates, calls, t, scope, f, pos, k);
      CallBody(c, templates, calls, t, k);
      var (call, g) := (calls[k], CallNames(templates, calls[k]));
      var (lo, hi) := (At(t, templates[call.def].start), At(t, templates[call.def].end));
      CallShrinks(c, templates, calls, k);
      ExpandIsFlat(c, templates, calls, t, Some(call.def), Then(g, f), lo);
      RenameTwice(Slice(c, t, lo, hi), g, f, Then(g, f));
      ExpandIsFlat(c, templates, calls, t, scope, f, At(t, call.end));
      SliceSplit(c, t, pos, At(t, call.end), end);
      RenameAppend(Slice(c, t, pos, At(t, call.end)), Slice(c, t, At(t, call.end), end), f);
    } else {
      ItemExpands(c, templates, calls, t, scope, f, pos);
      ExpandIsFlat(c, templates, calls, t, scope, f, pos + 1);
      SliceSplit(c, t, pos, pos + 1, end);
      RenameAppend(Slice(c, t, pos, pos + 1), Slice(c, t, pos + 1, end), f);
    }
  }

  lemma ScopeInside(c: Flat, templates: seq<Template>, t: Track, scope: Option<nat>)
    requires ScopeFits(c, templates, scope)
    ensures At(t, ScopeEnd(c, templates, scope)) <= At(t, c.Size())
  {
  }

  /** One call of `scope` read. */
  lemma CallExpands(c: Flat, templates: seq<Template>, calls: seq<Call>, t: Track, scope: Option<nat>, f: Names,
                    pos: nat, k: nat)
    requires Compact(c, templates, calls) && (scope.Some? ==> scope.value < |templates|)
    requires pos < At(t, ScopeEnd(c, templates, scope)) <= At(t, c.Size()) && CallAt(calls, t, scope, pos) == Some(k)
    requires k < |calls| && calls[k].def < |templates|
    ensures Expand(c, templates, calls, t, scope, f, pos)
         == Expand(c, templates, calls, t, Some(calls[k].def), Then(CallNames(templates, calls[k]), f),
           At(t, templates[calls[k].def].start))
            + Expand(c, templates, calls, t, scope, f, At(t, calls[k].end))
  {
    hide Compact, StartsAt, Slice, RenameAll, Then, CallNames, Spanning, BodySize, ScopeEnd;
  }

  /** One row or witness op outside calls read. */
  lemma ItemExpands(c: Flat, templates: seq<Template>, calls: seq<Call>, t: Track, scope: Option<nat>, f: Names,
                    pos: nat)
    requires Compact(c, templates, calls) && ScopeFits(c, templates, scope)
    requires pos < At(t, ScopeEnd(c, templates, scope)) <= At(t, c.Size()) && CallAt(calls, t, scope, pos).None?
    ensures Expand(c, templates, calls, t, scope, f, pos)
         == RenameAll(Slice(c, t, pos, pos + 1), f) + Expand(c, templates, calls, t, scope, f, pos + 1)
  {
  }

  lemma EmptySlice(c: Flat, templates: seq<Template>, calls: seq<Call>, t: Track, scope: Option<nat>, f: Names,
                   pos: nat)
    requires Compact(c, templates, calls) && ScopeFits(c, templates, scope)
    requires pos == At(t, ScopeEnd(c, templates, scope)) <= At(t, c.Size())
    ensures RenameAll(Slice(c, t, pos, pos), f) == [] == Expand(c, templates, calls, t, scope, f, pos)
  {
  }

  lemma CallInScope(c: Flat, templates: seq<Template>, calls: seq<Call>, t: Track, k: nat)
    requires Compact(c, templates, calls) && k < |calls|
    ensures calls[k].def < |templates| && ScopeFits(c, templates, Some(calls[k].def))
    ensures calls[k].parent.Some? ==> calls[k].parent.value < |templates|
    ensures At(t, calls[k].end) <= At(t, ScopeEnd(c, templates, calls[k].parent))
  {
    assert CompactCall(c, templates, calls[k]);
  }

  /** Detection then expansion gives back the circuit's rows and witness ops, in order. */
  method DetectAndExpand(c: Flat, regions: seq<Region>, hash: Shape -> Digest, maxRows: nat)
    returns (templates: seq<Template>, calls: seq<Call>, ghost sig: seq<Option<Key>>)
    requires Fits(c, regions)
    ensures |sig| == |regions|
    ensures KeysFixVars(regions, sig) ==>
      && Compact(c, templates, calls)
      && Expand(c, templates, calls, Track.Rows, None, v => v, 0) == c.rows
      && Expand(c, templates, calls, Wits, None, v => v, 0) == Present(c.wits)
  {
    ghost var bad, plan, inline;
    templates, calls, sig, bad, plan, inline := Detect(c, regions, hash, maxRows);
    if KeysFixVars(regions, sig) {
      FoundCompact(c, regions, hash, maxRows, sig, bad, plan, templates, calls);
      ExpandWhole(c, templates, calls);
    }
  }

  /** Grouped by the forms themselves, variable counts never collide. */
  lemma LiteralKeysFixVars(c: Flat, regions: seq<Region>, hash: Shape -> Digest, maxRows: nat, sig: seq<Option<Key>>)
    requires Signed(c, regions, hash, maxRows, sig) && forall form :: hash(form) == Literal(form)
    ensures KeysFixVars(regions, sig)
  {
    forall i, j | 0 <= i < |regions| && 0 <= j < |regions| && sig[i].Some? && sig[i] == sig[j]
      ensures regions[i].Vars() == regions[j].Vars()
    {
      SignedNamed(c, regions, hash, maxRows, sig, i);
      SignedNamed(c, regions, hash, maxRows, sig, j);
      var (a, b) := (regions[i], regions[j]);
      assert ShapeIn(c, a.start, a.end) == ShapeIn(c, b.start, b.end);
      assert |ShapeIn(c, a.start, a.end).kinds| == a.Vars() && |ShapeIn(c, b.start, b.end).kinds| == b.Vars();
    }
  }

  /** Then detection is exact without any assumption. */
  method DetectExactly(c: Flat, regions: seq<Region>, maxRows: nat) returns (templates: seq<Template>, calls: seq<Call>)
    requires Fits(c, regions)
    ensures Compact(c, templates, calls)
    ensures Expand(c, templates, calls, Track.Rows, None, v => v, 0) == c.rows
    ensures Expand(c, templates, calls, Wits, None, v => v, 0) == Present(c.wits)
  {
    hide Signed, Found, Complete, Mismatched, Compact, Expand;
    ghost var sig, bad, plan, inline;
    var key: Shape -> Digest := form => Literal(form);
    templates, calls, sig, bad, plan, inline := Detect(c, regions, key, maxRows);
    LiteralKeysFixVars(c, regions, key, maxRows, sig);
    FoundCompact(c, regions, key, maxRows, sig, bad, plan, templates, calls);
    ExpandWhole(c, templates, calls);
  }

  lemma ExpandWhole(c: Flat, templates: seq<Template>, calls: seq<Call>)
    requires Compact(c, templates, calls)
    ensures Expand(c, templates, calls, Track.Rows, None, v => v, 0) == c.rows
    ensures Expand(c, templates, calls, Wits, None, v => v, 0) == Present(c.wits)
  {
    var same: Names := v => v;
    ExpandIsFlat(c, templates, calls, Track.Rows, None, same, 0);
    ExpandIsFlat(c, templates, calls, Wits, None, same, 0);
    assert c.rows[0..|c.rows|] == c.rows && c.wits[0..|c.wits|] == c.wits;
    RenameSame(c.rows, same);
    RenameSame(Present(c.wits), same);
  }

  // ----- no template reaches itself -----

  /** Template `b` is called in the body of template `a`. */
  ghost predicate Uses(calls: seq<Call>, a: nat, b: nat) {
    exists k :: 0 <= k < |calls| && calls[k].parent == Some(a) && calls[k].def == b
  }

  /** Each template of `path` uses the next. */
  ghost predicate CallPath(calls: seq<Call>, path: seq<nat>) {
    forall i :: 0 <= i < |path| - 1 ==> Uses(calls, path[i], path[i + 1])
  }

  ghost predicate Shrinks(c: Flat, templates: seq<Template>, b: nat, a: nat) {
    && a < |templates| && b < |templates|
    && Spanning(c, templates[a].start, templates[a].end) && Spanning(c, templates[b].start, templates[b].end)
    && Smaller(c, templates[b].start, templates[b].end, templates[a].start, templates[a].end)
  }

  lemma UsesShrink(c: Flat, templates: seq<Template>, calls: seq<Call>, a: nat, b: nat)
    requires Compact(c, templates, calls) && Uses(calls, a, b)
    ensures Shrinks(c, templates, b, a)
  {
    var k :| 0 <= k < |calls| && calls[k].parent == Some(a) && calls[k].def == b;
    assert CompactCall(c, templates, calls[k]);
  }

  lemma {:induction false} PathShrinks(c: Flat, templates: seq<Template>, calls: seq<Call>, path: seq<nat>)
    requires Compact(c, templates, calls) && CallPath(calls, path) && |path| >= 2
    ensures Shrinks(c, templates, path[|path| - 1], path[0])
    decreases |path|
  {
    hide Compact, Uses, Shrinks;
    assert Uses(calls, path[0], path[0 + 1]);
    UsesShrink(c, templates, calls, path[0], path[1]);
    if |path| > 2 {
      var rest := path[1..];
      forall i | 0 <= i < |rest| - 1
        ensures Uses(calls, rest[i], rest[i + 1])
      {
        assert Uses(calls, path[i + 1], path[(i + 1) + 1]);
      }
      PathShrinks(c, templates, calls, rest);
      ShrinksTrans(c, templates, path[|path| - 1], path[1], path[0]);
    }
  }

  lemma ShrinksTrans(c: Flat, templates: seq<Template>, x: nat, y: nat, z: nat)
    requires Shrinks(c, templates, x, y) && Shrinks(c, templates, y, z)
    ensures Shrinks(c, templates, x, z)
  {
  }

  lemma NoCycle(c: Flat, templates: seq<Template>, calls: seq<Call>, path: seq<nat>)
    requires Compact(c, templates, calls) && CallPath(calls, path) && |path| >= 2
    ensures path[0] != path[|path| - 1]
  {
    PathShrinks(c, templates, calls, path);
  }
}
