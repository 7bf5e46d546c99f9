/** The rows, witness ops and variables each wasm call produced: how the builder records them, and how they nest. */
module Regions {
  import opened Words

  /** How many rows, witness ops and variables there are at some moment. */
  datatype Mark = Mark(rows: nat, wits: nat, vars: nat) {
    predicate NotAfter(m: Mark) {
      rows <= m.rows && wits <= m.wits && vars <= m.vars
    }
  }

  /** What one call produced; `end` means nothing while the call is open. */
  datatype Region = Region(start: Mark, end: Mark, parent: Option<nat>, closed: bool) {
    function Rows(): int { end.rows - start.rows }
    function Wits(): int { end.wits - start.wits }
    function Vars(): int { end.vars - start.vars }
  }

  /** Smaller regions stay inline. */
  const MinRows: nat := 8

  predicate Before(a: Region, b: Region) {
    a.closed && a.end.NotAfter(b.start)
  }

  predicate Apart(a: Region, b: Region) {
    Before(a, b) || Before(b, a)
  }

  /** `a` is part of the call `b`. */
  predicate Inside(a: Region, b: Region) {
    b.start.NotAfter(a.start) && (b.closed ==> a.closed && a.end.NotAfter(b.end))
  }

  ghost predicate Parented(regions: seq<Region>) {
    forall i :: 0 <= i < |regions| && regions[i].parent.Some? ==> regions[i].parent.value < i
  }

  /** Calls nest: a closed call ran inside its caller, and calls made by one caller follow each other. */
  ghost predicate Nested(regions: seq<Region>) {
    && Parented(regions)
    && (forall i :: 0 <= i < |regions| && regions[i].closed ==> regions[i].start.NotAfter(regions[i].end))
    && (forall i :: 0 <= i < |regions| && regions[i].parent.Some? ==>
      Inside(regions[i], regions[regions[i].parent.value]))
    && (forall i, j :: 0 <= i < j < |regions| && regions[i].parent == regions[j].parent ==>
      Before(regions[i], regions[j]))
  }

  /** Every call began, and every closed one ended, by `m`. */
  ghost predicate By(regions: seq<Region>, m: Mark) {
    forall i :: 0 <= i < |regions| ==>
      regions[i].start.NotAfter(m) && (regions[i].closed ==> regions[i].end.NotAfter(m))
  }

  /** The open calls `stack` are a chain of callers, outermost first, and every other call is closed. */
  ghost predicate Chain(regions: seq<Region>, stack: seq<nat>) {
    && (forall k :: 0 <= k < |stack| ==> Link(regions, stack, k))
    && (forall i :: 0 <= i < |regions| && !regions[i].closed ==> i in stack)
  }

  /** The `k`-th open call was made by the one before it. */
  ghost predicate Link(regions: seq<Region>, stack: seq<nat>, k: nat)
    requires k < |stack|
  {
    && stack[k] < |regions| && !regions[stack[k]].closed && regions[stack[k]].parent == Caller(stack[..k])
    && forall j :: 0 <= j < k ==> stack[j] < stack[k]
  }

  ghost predicate Recorded(regions: seq<Region>, stack: seq<nat>, now: Mark) {
    Nested(regions) && Chain(regions, stack) && By(regions, now)
  }

  function Caller(stack: seq<nat>): Option<nat> {
    if stack == [] then None else Some(stack[|stack| - 1])
  }

  /** No open call was made by the innermost one. */
  lemma CalledAreClosed(regions: seq<Region>, stack: seq<nat>, i: nat)
    requires Chain(regions, stack) && i < |regions| && regions[i].parent == Caller(stack)
    ensures regions[i].closed
  {
    forall k | 0 <= k < |stack|
      ensures stack[k] < |regions| && regions[stack[k]].parent != Caller(stack)
    {
      assert Link(regions, stack, k) && Link(regions, stack, |stack| - 1);
      assert k > 0 ==> stack[k - 1] < stack[|stack| - 1];
    }
  }

  function Begun(stack: seq<nat>, now: Mark): Region {
    Region(now, Mark(0, 0, 0), Caller(stack), false)
  }

  lemma BeginRecorded(regions: seq<Region>, stack: seq<nat>, now: Mark)
    requires Recorded(regions, stack, now)
    ensures Recorded(regions + [Begun(stack, now)], stack + [|regions|], now)
  {
    BeginNested(regions, stack, now);
    BeginChain(regions, stack, now);
    hide Nested, Chain;
  }

  lemma BeginChain(regions: seq<Region>, stack: seq<nat>, now: Mark)
    requires Chain(regions, stack)
    ensures Chain(regions + [Begun(stack, now)], stack + [|regions|])
  {
    var (next, open) := (regions + [Begun(stack, now)], stack + [|regions|]);
    forall k | 0 <= k < |open|
      ensures Link(next, open, k)
    {
      assert k < |stack| ==> Link(regions, stack, k) && open[k] == stack[k];
      assert open[..k] == stack[..k];
      forall j | 0 <= j < k
        ensures open[j] < open[k]
      {
        assert Link(regions, stack, j) && open[j] == stack[j];
      }
    }
    assert open[|stack|] == |regions|;
  }

  lemma BeginNested(regions: seq<Region>, stack: seq<nat>, now: Mark)
    requires Recorded(regions, stack, now)
    ensures Nested(regions + [Begun(stack, now)])
  {
    var (r, next) := (Begun(stack, now), regions + [Begun(stack, now)]);
    if stack != [] {
      assert Link(regions, stack, |stack| - 1);
      assert next[stack[|stack| - 1]] == regions[stack[|stack| - 1]];
    }
    forall i | 0 <= i < |next| && next[i].parent.Some?
      ensures next[i].parent.value < i && Inside(next[i], next[next[i].parent.value])
    {
      assert i < |regions| ==> next[i] == regions[i];
    }
    forall i, j | 0 <= i < j < |next| && next[i].parent == next[j].parent
      ensures Before(next[i], next[j])
    {
      assert next[i] == regions[i];
      if j == |regions| {
        CalledAreClosed(regions, stack, i);
      } else {
        assert next[j] == regions[j];
      }
    }
  }

  lemma EndRecorded(regions: seq<Region>, stack: seq<nat>, now: Mark, i: nat, r: Region)
    requires Recorded(regions, stack, now) && Caller(stack) == Some(i) && i < |regions|
    requires r == regions[i].(end := now, closed := true)
    ensures Recorded(regions[i := r], stack[..|stack| - 1], now)
  {
    EndNested(regions, stack, now, i, r);
    EndChain(regions, stack, i, r);
    hide Nested, Chain;
  }

  lemma EndChain(regions: seq<Region>, stack: seq<nat>, i: nat, r: Region)
    requires Chain(regions, stack) && Caller(stack) == Some(i) && i < |regions| && r.closed
    ensures Chain(regions[i := r], stack[..|stack| - 1])
  {
    var (next, open) := (regions[i := r], stack[..|stack| - 1]);
    assert Link(regions, stack, |stack| - 1);
    forall k | 0 <= k < |open|
      ensures Link(next, open, k)
    {
      assert Link(regions, stack, k);
      assert open[..k] == stack[..k];
    }
    forall j | 0 <= j < |next| && !next[j].closed
      ensures j in open
    {
      var k :| 0 <= k < |stack| && stack[k] == j;
      assert open[k] == j;
    }
  }

  lemma EndNested(regions: seq<Region>, stack: seq<nat>, now: Mark, i: nat, r: Region)
    requires Recorded(regions, stack, now) && Caller(stack) == Some(i) && i < |regions|
    requires r == regions[i].(end := now, closed := true)
    ensures Nested(regions[i := r])
  {
    var next := regions[i := r];
    assert Link(regions, stack, |stack| - 1);
    forall j | 0 <= j < |next|
      ensures next[j].parent == regions[j].parent && next[j].start == regions[j].start
    {
    }
    forall j | 0 <= j < |next| && next[j].parent.Some?
      ensures next[j].parent.value < j && Inside(next[j], next[next[j].parent.value])
    {
      assert Inside(regions[j], regions[regions[j].parent.value]);
      if regions[j].parent == Some(i) {
        CalledAreClosed(regions, stack, j);
      }
      if j == i && regions[regions[i].parent.value].closed {
        assert false;
      }
    }
    forall j, k | 0 <= j < k < |next| && next[j].parent == next[k].parent
      ensures Before(next[j], next[k])
    {
      assert Before(regions[j], regions[k]);
    }
  }

  /** Forgetting the latest calls, all closed, leaves the others as they were. */
  lemma TruncateRecorded(regions: seq<Region>, stack: seq<nat>, now: Mark, i: nat)
    requires Recorded(regions, stack, now) && i <= |regions| && forall k :: 0 <= k < |stack| ==> stack[k] < i
    ensures Recorded(regions[..i], stack, now)
  {
    var next := regions[..i];
    assert forall j :: 0 <= j < |next| ==> next[j] == regions[j];
    forall k | 0 <= k < |stack|
      ensures Link(next, stack, k)
    {
      assert Link(regions, stack, k);
    }
  }

  class Recorder {
    var now: Mark
    var regions: seq<Region>
    /** The open calls, outermost first. */
    var stack: seq<nat>

    ghost predicate Valid()
      reads this
    {
      Recorded(regions, stack, now)
    }

    constructor ()
      ensures Valid() && regions == [] && stack == [] && now == Mark(0, 0, 0)
    {
      now, regions, stack := Mark(0, 0, 0), [], [];
    }

    /** The circuit grew. */
    method Emit(more: Mark)
      requires Valid()
      modifies this`now
      ensures Valid() && now == Mark(old(now.rows) + more.rows, old(now.wits) + more.wits, old(now.vars) + more.vars)
    {
      hide Nested, Chain;
      now := Mark(now.rows + more.rows, now.wits + more.wits, now.vars + more.vars);
    }

    method RegionBegin()
      requires Valid()
      modifies this`regions, this`stack
      ensures Valid()
      ensures stack == old(stack) + [|old(regions)|]
      ensures regions == old(regions) + [Begun(old(stack), now)]
    {
      BeginRecorded(regions, stack, now);
      hide Recorded;
      var parent := Caller(stack);
      regions := regions + [Region(now, Mark(0, 0, 0), parent, false)];
      stack := stack + [|regions| - 1];
    }

    /** The innermost open call returned; a small one is forgotten with everything inside it. */
    method RegionEnd()
      requires Valid()
      modifies this`regions, this`stack
      ensures Valid()
      ensures old(stack) == [] ==> regions == old(regions) && stack == []
      ensures old(stack) != [] ==>
        var i := old(stack)[|old(stack)| - 1];
        && stack == old(stack)[..|old(stack)| - 1] && i < |old(regions)|
        && var r := old(regions)[i].(end := now, closed := true);
           regions == if r.Rows() < MinRows then old(regions)[..i] else old(regions)[i := r]
    {
      if stack != [] {
        var i := stack[|stack| - 1];
        assert Link(regions, stack, |stack| - 1);
        var r := regions[i].(end := now, closed := true);
        EndRecorded(regions, stack, now, i, r);
        hide Nested, By;
        stack := stack[..|stack| - 1];
        regions := regions[i := r];
        if r.Rows() < MinRows {
          TruncateRecorded(regions, stack, now, i);
          assert regions[..i] == old(regions)[..i];
          regions := regions[..i];
        }
      }
    }
  }
}
