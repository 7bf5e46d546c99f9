/** Which of a template's own variables are read outside its calls: the least sets that hold what some call's
    surroundings read, and are closed under nesting. */
module Outputs {
  import opened Words
  import opened Collections
  import opened Regions
  import opened Renaming
  import opened Templates
  import opened Detection
  import opened Expansion

  /** Own variables, by offset, of each template. */
  type Sets = seq<set<nat>>

  function VarsOf(call: Call): nat {
    if call.start.vars <= call.end.vars then call.end.vars - call.start.vars else 0
  }

  /** Something outside the call reads variable `v`. */
  predicate ReadOutside(c: Flat, call: Call, v: nat) {
    || (exists i :: 0 <= i < |c.rows| && !(call.start.rows <= i < call.end.rows) && v in ItemVars(c.rows[i]))
    || (exists i ::
          && 0 <= i < |c.wits| && !(call.start.wits <= i < call.end.wits) && c.wits[i].Some?
          && v in ItemVars(c.wits[i].value))
  }

  ghost predicate OkCalls(templates: seq<Template>, calls: seq<Call>) {
    forall k :: 0 <= k < |calls| ==> OkCall(templates, calls[k])
  }

  ghost predicate OkCall(templates: seq<Template>, call: Call) {
    && call.def < |templates|
    && (call.parent.Some? ==>
      call.parent.value < |templates| && templates[call.parent.value].start.vars <= call.start.vars)
  }

  /** The call's surroundings read its variable at offset `o`. */
  predicate Read(c: Flat, call: Call, o: nat) {
    o < VarsOf(call) && ReadOutside(c, call, call.start.vars + o)
  }

  /** The call's variable at offset `o` is an output of the template it lies in. */
  predicate Carried(templates: seq<Template>, call: Call, outs: Sets, o: nat) {
    && call.parent.Some? && call.parent.value < |outs| && call.parent.value < |templates| && o < VarsOf(call)
    && call.start.vars + o - templates[call.parent.value].start.vars in outs[call.parent.value]
  }

  /** Every output the call's surroundings demand is in `outs`. */
  ghost predicate Reads(c: Flat, call: Call, outs: Sets) {
    call.def < |outs| && forall o: nat :: Read(c, call, o) ==> o in outs[call.def]
  }

  /** An output of the template a call lies in, inside that call, is an output of the call's template too. */
  ghost predicate Nests(templates: seq<Template>, call: Call, outs: Sets) {
    call.def < |outs| && forall o: nat :: Carried(templates, call, outs, o) ==> o in outs[call.def]
  }

  /** `outs` holds what is read and is closed. */
  ghost predicate Enough(c: Flat, templates: seq<Template>, calls: seq<Call>, outs: Sets) {
    && |outs| == |templates|
    && (forall k :: 0 <= k < |calls| ==> Reads(c, calls[k], outs))
    && forall k :: 0 <= k < |calls| ==> Nests(templates, calls[k], outs)
  }

  ghost predicate Within(a: Sets, b: Sets) {
    |a| == |b| && forall d :: 0 <= d < |a| ==> a[d] <= b[d]
  }

  /** `outs` is part of every family that is enough. */
  ghost predicate Needed(c: Flat, templates: seq<Template>, calls: seq<Call>, outs: Sets) {
    forall all: Sets :: Enough(c, templates, calls, all) ==> Within(outs, all)
  }

  /** Offsets in range: what bounds the search. */
  ghost predicate InRange(outs: Sets, n: nat) {
    forall d :: 0 <= d < |outs| ==> outs[d] <= UpTo(n)
  }

  ghost function Total(outs: Sets): nat {
    if outs == [] then 0 else Total(outs[1..]) + |outs[0]|
  }

  lemma {:induction false} TotalBound(outs: Sets, n: nat)
    requires InRange(outs, n)
    ensures Total(outs) <= |outs| * n
  {
    if outs != [] {
      SubsetSize(outs[0], UpTo(n));
      assert forall d :: 0 <= d < |outs| - 1 ==> outs[1..][d] == outs[d + 1];
      TotalBound(outs[1..], n);
      OneMore(|outs|, n);
    }
  }

  lemma OneMore(k: int, n: int)
    ensures (k - 1) * n + n == k * n
  {
  }

  lemma {:induction false} TotalGrows(outs: Sets, d: nat, more: set<nat>)
    requires d < |outs| && outs[d] < more
    ensures Total(outs[d := more]) > Total(outs)
  {
    var next := outs[d := more];
    if d == 0 {
      assert next[1..] == outs[1..];
      SubsetSize(outs[0], more);
    } else {
      assert next[1..] == outs[1..][d - 1 := more];
      TotalGrows(outs[1..], d - 1, more);
    }
  }

  /** Adding to one template's outputs what every family that is enough holds of it. */
  lemma Adding(c: Flat, templates: seq<Template>, calls: seq<Call>, outs: Sets, d: nat, more: set<nat>, n: nat)
    requires Needed(c, templates, calls, outs) && InRange(outs, n) && d < |outs| && more <= UpTo(n)
    requires forall all: Sets :: Enough(c, templates, calls, all) ==> d < |all| && more <= all[d]
    ensures Needed(c, templates, calls, outs[d := outs[d] + more]) && InRange(outs[d := outs[d] + more], n)
  {
    hide Enough;
    forall all: Sets | Enough(c, templates, calls, all)
      ensures Within(outs[d := outs[d] + more], all)
    {
      assert Within(outs, all) && more <= all[d];
    }
  }

  lemma NeededIn(c: Flat, templates: seq<Template>, calls: seq<Call>, outs: Sets, all: Sets)
    requires Needed(c, templates, calls, outs) && Enough(c, templates, calls, all)
    ensures Within(outs, all)
  {
  }

  lemma NoneNeeded(c: Flat, templates: seq<Template>, calls: seq<Call>, outs: Sets, n: nat)
    requires |outs| == |templates| && forall d :: 0 <= d < |outs| ==> outs[d] == {}
    ensures Needed(c, templates, calls, outs) && InRange(outs, n)
  {
    forall all: Sets | Enough(c, templates, calls, all)
      ensures Within(outs, all)
    {
    }
  }

  lemma ReadsGrow(c: Flat, call: Call, outs: Sets, d: nat, more: set<nat>)
    requires Reads(c, call, outs) && d < |outs|
    ensures Reads(c, call, outs[d := outs[d] + more])
  {
  }

  /** What call `k` reads or is carried is in every family that is enough and holds `outs`. */
  lemma ReadNeeded(c: Flat, templates: seq<Template>, calls: seq<Call>, k: nat, all: Sets, more: set<nat>)
    requires k < |calls| && Enough(c, templates, calls, all)
    requires forall o :: o in more ==> Read(c, calls[k], o)
    ensures calls[k].def < |all| && more <= all[calls[k].def]
  {
    assert Reads(c, calls[k], all);
  }

  lemma CarriedNeeded(c: Flat, templates: seq<Template>, calls: seq<Call>, k: nat, outs: Sets, all: Sets,
                      more: set<nat>)
    requires k < |calls| && Enough(c, templates, calls, all) && Within(outs, all)
    requires forall o :: o in more ==> Carried(templates, calls[k], outs, o)
    ensures calls[k].def < |all| && more <= all[calls[k].def]
  {
    assert Nests(templates, calls[k], all);
    forall o | o in more
      ensures Carried(templates, calls[k], all, o)
    {
      assert Carried(templates, calls[k], outs, o);
    }
  }

  /** The union over all calls of what is read. */
  method Marked(c: Flat, templates: seq<Template>, calls: seq<Call>, ghost n: nat) returns (outs: Sets)
    requires OkCalls(templates, calls) && forall k :: 0 <= k < |calls| ==> VarsOf(calls[k]) <= n
    ensures |outs| == |templates| && InRange(outs, n) && Needed(c, templates, calls, outs)
    ensures forall k :: 0 <= k < |calls| ==> Reads(c, calls[k], outs)
  {
    hide ReadOutside, Nests, Needed, InRange, Enough, Within;
    var none: set<nat> := {};
    outs := seq(|templates|, _ => none);
    NoneNeeded(c, templates, calls, outs, n);
    for k := 0 to |calls|
      invariant |outs| == |templates| && InRange(outs, n) && Needed(c, templates, calls, outs)
      invariant forall j :: 0 <= j < k ==> Reads(c, calls[j], outs)
    {
      var (call, was) := (calls[k], outs);
      var more := set o | 0 <= o < VarsOf(call) && Read(c, call, o) :: o;
      forall all: Sets | Enough(c, templates, calls, all)
        ensures call.def < |all| && more <= all[call.def]
      {
        ReadNeeded(c, templates, calls, k, all, more);
      }
      Adding(c, templates, calls, outs, call.def, more, n);
      outs := outs[call.def := outs[call.def] + more];
      forall j | 0 <= j < k
        ensures Reads(c, calls[j], outs)
      {
        ReadsGrow(c, calls[j], was, call.def, more);
      }
    }
  }

  /** The outputs of every template: the least sets that hold what is read and are closed under nesting. */
  method OutputsOf(c: Flat, templates: seq<Template>, calls: seq<Call>) returns (outs: Sets)
    requires OkCalls(templates, calls)
    ensures Enough(c, templates, calls, outs) && Needed(c, templates, calls, outs)
  {
    hide Needed, Read, InRange, Reads, Within;
    ghost var n := Widest(calls);
    WidestIs(calls);
    outs := Marked(c, templates, calls, n);
    TotalBound(outs, n);
    var changed := true;
    while changed
      invariant |outs| == |templates| && InRange(outs, n) && Needed(c, templates, calls, outs)
        && Total(outs) <= |templates| * n
      invariant forall k :: 0 <= k < |calls| ==> Reads(c, calls[k], outs)
      invariant !changed ==> forall k :: 0 <= k < |calls| ==> Nests(templates, calls[k], outs)
      decreases |templates| * n - Total(outs), if changed then 1 else 0
    {
      changed := false;
      ghost var before := outs;
      for k := 0 to |calls|
        invariant |outs| == |templates| && InRange(outs, n) && Needed(c, templates, calls, outs)
        invariant forall j :: 0 <= j < |calls| ==> Reads(c, calls[j], outs)
        invariant if changed then Total(outs) > Total(before) else outs == before
        invariant !changed ==> forall j :: 0 <= j < k ==> Nests(templates, calls[j], outs)
      {
        var more;
        outs, more := NestOne(c, templates, calls, outs, k, n);
        changed := changed || more;
      }
      TotalBound(outs, n);
    }
  }

  /** One call of the closing loop. */
  method NestOne(c: Flat, templates: seq<Template>, calls: seq<Call>, outs: Sets, k: nat, ghost n: nat)
    returns (next: Sets, changed: bool)
    requires OkCalls(templates, calls) && k < |calls| && |outs| == |templates| && VarsOf(calls[k]) <= n
    requires Needed(c, templates, calls, outs) && InRange(outs, n)
    requires forall j :: 0 <= j < |calls| ==> Reads(c, calls[j], outs)
    ensures |next| == |templates| && Needed(c, templates, calls, next) && InRange(next, n)
    ensures forall j :: 0 <= j < |calls| ==> Reads(c, calls[j], next)
    ensures changed <==> !Nests(templates, calls[k], outs)
    ensures if changed then Total(next) > Total(outs) else next == outs
  {
    hide Needed, Read, InRange, Reads, Enough;
    var call := calls[k];
    var more := set o | 0 <= o < VarsOf(call) && Carried(templates, call, outs, o) :: o;
    changed := !(more <= outs[call.def]);
    next := outs;
    if changed {
      forall all: Sets | Enough(c, templates, calls, all)
        ensures call.def < |all| && more <= all[call.def]
      {
        NeededIn(c, templates, calls, outs, all);
        CarriedNeeded(c, templates, calls, k, outs, all, more);
      }
      Adding(c, templates, calls, outs, call.def, more, n);
      TotalGrows(outs, call.def, outs[call.def] + more);
      next := outs[call.def := outs[call.def] + more];
      forall j | 0 <= j < |calls|
        ensures Reads(c, calls[j], next)
      {
        ReadsGrow(c, calls[j], outs, call.def, more);
      }
    } else {
      assert forall o: nat :: Carried(templates, call, outs, o) ==> o in more;
    }
  }

  ghost function Widest(calls: seq<Call>): nat {
    if calls == [] then 0 else var m := Widest(calls[1..]); if VarsOf(calls[0]) > m then VarsOf(calls[0]) else m
  }

  lemma {:induction false} WidestIs(calls: seq<Call>)
    ensures forall k :: 0 <= k < |calls| ==> VarsOf(calls[k]) <= Widest(calls)
  {
    if calls != [] {
      WidestIs(calls[1..]);
      assert forall k :: 1 <= k < |calls| ==> calls[k] == calls[1..][k - 1];
    }
  }

  /** The compact circuit with its templates' outputs: it expands to the circuit, and no output is missing or spare. */
  method DetectWithOutputs(c: Flat, regions: seq<Region>, maxRows: nat)
    returns (templates: seq<Template>, calls: seq<Call>, outs: Sets)
    requires Fits(c, regions)
    ensures Compact(c, templates, calls)
    ensures Expand(c, templates, calls, Track.Rows, None, v => v, 0) == c.rows
    ensures Expand(c, templates, calls, Wits, None, v => v, 0) == Present(c.wits)
    ensures Enough(c, templates, calls, outs) && Needed(c, templates, calls, outs)
  {
    hide Compact, Expand, Enough, Needed, OkCalls;
    templates, calls := DetectExactly(c, regions, maxRows);
    CompactCalls(c, templates, calls);
    outs := OutputsOf(c, templates, calls);
  }

  lemma CompactCalls(c: Flat, templates: seq<Template>, calls: seq<Call>)
    requires Compact(c, templates, calls)
    ensures OkCalls(templates, calls)
  {
    forall k | 0 <= k < |calls|
      ensures OkCall(templates, calls[k])
    {
      assert CompactCall(c, templates, calls[k]);
    }
  }
}
