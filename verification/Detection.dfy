/** Choosing the calls of each scope, top-down, and redoing the choice until every call is exactly its template. */
module Detection {
  import opened Words
  import opened Collections
  import opened Regions
  import opened Templates

  /** Region `region` becomes a call of template `def`, at the top level or in the body of template `parent`. */
  datatype Entry = Entry(region: nat, def: nat, parent: Option<nat>)

  /** A scope still to walk: whose body it is, its key, and the calls made there. */
  datatype Scope = Scope(parent: Option<nat>, own: Option<Key>, start: seq<nat>)

  /** The first region of each template, and every call. */
  datatype Plan = Plan(firsts: seq<nat>, entries: seq<Entry>)

  // ----- what a plan keeps -----

  ghost predicate InScope(regions: seq<Region>, firsts: seq<nat>, parent: Option<nat>, x: nat) {
    && x < |regions|
    && (parent.Some? ==>
          && parent.value < |firsts| && firsts[parent.value] < |regions|
          && Inside(regions[x], regions[firsts[parent.value]]))
  }

  /** A call has its template's key, and is inside the scope's body, which has another key. */
  ghost predicate EntryOk(regions: seq<Region>, sig: seq<Option<Key>>, bad: set<nat>, firsts: seq<nat>, e: Entry)
    requires |sig| == |regions|
  {
    && InScope(regions, firsts, e.parent, e.region) && e.region !in bad
    && e.def < |firsts| && firsts[e.def] < |regions|
    && sig[e.region].Some? && sig[e.region] == sig[firsts[e.def]]
    && (e.parent.Some? ==> sig[e.region] != sig[firsts[e.parent.value]])
  }

  /** Calls of one scope do not overlap. */
  ghost predicate ScopesApart(regions: seq<Region>, entries: seq<Entry>) {
    forall j, k :: 0 <= j < k < |entries| && entries[j].parent == entries[k].parent ==>
      ApartAt(regions, entries[j].region, entries[k].region)
  }

  ghost predicate DefsOk(regions: seq<Region>, sig: seq<Option<Key>>, firsts: seq<nat>, defOf: map<Key, nat>)
    requires |sig| == |regions|
  {
    && (forall d :: 0 <= d < |firsts| ==>
          firsts[d] < |regions| && sig[firsts[d]].Some? && sig[firsts[d]].value in defOf
            && defOf[sig[firsts[d]].value] == d)
    && (forall k :: k in defOf ==> defOf[k] < |firsts| && sig[firsts[defOf[k]]] == Some(k))
  }

  ghost predicate PlanOk(regions: seq<Region>, sig: seq<Option<Key>>, bad: set<nat>, plan: Plan)
    requires |sig| == |regions|
  {
    && (forall e :: e in plan.entries ==> EntryOk(regions, sig, bad, plan.firsts, e))
    && ScopesApart(regions, plan.entries)
    && (forall d :: 0 <= d < |plan.firsts| ==> plan.firsts[d] < |regions| && sig[plan.firsts[d]].Some?)
    && (forall d, d' :: 0 <= d < d' < |plan.firsts| ==> sig[plan.firsts[d]] != sig[plan.firsts[d']])
  }

  /** No chosen call of scope `parent` overlaps a region of `list`, nor do two regions of `list`. */
  ghost predicate Clear(regions: seq<Region>, plan: Plan, parent: Option<nat>, list: seq<nat>) {
    && AllApart(regions, list)
    && (forall x :: x in list ==> InScope(regions, plan.firsts, parent, x))
    && (forall e, x :: e in plan.entries && e.parent == parent && x in list ==> ApartAt(regions, e.region, x))
  }

  /** A waiting scope: nothing chosen there yet. */
  ghost predicate Waiting(regions: seq<Region>, sig: seq<Option<Key>>, plan: Plan, s: Scope)
    requires |sig| == |regions|
  {
    && Clear(regions, plan, s.parent, s.start)
    && (forall e :: e in plan.entries ==> e.parent != s.parent)
    && (s.parent.Some? ==> s.parent.value < |plan.firsts|)
    && OwnKey(regions, sig, plan, s.parent, s.own)
  }

  ghost predicate OwnKey(regions: seq<Region>, sig: seq<Option<Key>>, plan: Plan, parent: Option<nat>, own: Option<Key>)
    requires |sig| == |regions|
  {
    parent.Some? ==>
      && parent.value < |plan.firsts| && plan.firsts[parent.value] < |regions|
      && own == sig[plan.firsts[parent.value]]
  }

  /** The scopes left are different from each other and from `parent`. */
  ghost predicate OtherScopes(scopes: seq<Scope>, parent: Option<nat>) {
    && (forall j, k :: 0 <= j < k < |scopes| ==> scopes[j].parent != scopes[k].parent)
    && (forall j :: 0 <= j < |scopes| ==> scopes[j].parent != parent)
  }

  ghost predicate AllWaiting(regions: seq<Region>, sig: seq<Option<Key>>, plan: Plan, scopes: seq<Scope>)
    requires |sig| == |regions|
  {
    forall j :: 0 <= j < |scopes| ==> Waiting(regions, sig, plan, scopes[j])
  }

  ghost predicate Distinct(scopes: seq<Scope>) {
    forall j, k :: 0 <= j < k < |scopes| ==> scopes[j].parent != scopes[k].parent
  }

  /** In the middle of scope `scope`, with `stack` left of it. */
  ghost predicate Walking(regions: seq<Region>, sig: seq<Option<Key>>, bad: set<nat>, plan: Plan, defOf: map<Key, nat>,
                          scopes: seq<Scope>, scope: Scope, stack: seq<nat>)
    requires |sig| == |regions|
  {
    && PlanOk(regions, sig, bad, plan) && DefsOk(regions, sig, plan.firsts, defOf)
    && AllWaiting(regions, sig, plan, scopes) && OtherScopes(scopes, scope.parent)
    && Clear(regions, plan, scope.parent, stack) && OwnKey(regions, sig, plan, scope.parent, scope.own)
  }

  /** Two plans that differ in what is chosen in scope `parent` look the same elsewhere. */
  lemma StillWaiting(regions: seq<Region>, sig: seq<Option<Key>>, plan: Plan, next: Plan, e: Entry, s: Scope)
    requires |sig| == |regions| && Waiting(regions, sig, plan, s) && s.parent != e.parent
    requires plan.firsts <= next.firsts && next.entries == plan.entries + [e]
    ensures Waiting(regions, sig, next, s)
  {
  }

  lemma StillOk(regions: seq<Region>, sig: seq<Option<Key>>, bad: set<nat>, firsts: seq<nat>, more: seq<nat>, e: Entry)
    requires |sig| == |regions| && EntryOk(regions, sig, bad, firsts, e) && firsts <= more
    ensures EntryOk(regions, sig, bad, more, e)
  {
  }

  /** Taking the top region off the stack. */
  lemma ClearTop(regions: seq<Region>, plan: Plan, parent: Option<nat>, stack: seq<nat>)
    requires stack != [] && Clear(regions, plan, parent, stack)
    ensures var (i, rest) := (stack[|stack| - 1], stack[..|stack| - 1]);
      && Clear(regions, plan, parent, rest) && InScope(regions, plan.firsts, parent, i)
      && (forall x :: x in rest ==> ApartAt(regions, i, x))
      && (forall e :: e in plan.entries && e.parent == parent ==> ApartAt(regions, e.region, i))
  {
    var (i, rest) := (stack[|stack| - 1], stack[..|stack| - 1]);
    assert i in stack;
    forall x | x in rest
      ensures x in stack && ApartAt(regions, i, x)
    {
      var k :| 0 <= k < |rest| && rest[k] == x;
      assert stack[k] == x && ApartAt(regions, stack[k], stack[|stack| - 1]);
    }
    forall j, k | 0 <= j < k < |rest|
      ensures ApartAt(regions, rest[j], rest[k])
    {
      assert ApartAt(regions, stack[j], stack[k]);
    }
  }

  /** The chosen calls after choosing `e` too. */
  lemma Chosen(regions: seq<Region>, sig: seq<Option<Key>>, bad: set<nat>, plan: Plan, next: Plan, e: Entry)
    requires |sig| == |regions| && PlanOk(regions, sig, bad, plan)
    requires plan.firsts <= next.firsts && next.entries == plan.entries + [e]
    requires EntryOk(regions, sig, bad, next.firsts, e)
    requires forall f :: f in plan.entries && f.parent == e.parent ==> ApartAt(regions, f.region, e.region)
    ensures forall f :: f in next.entries ==> EntryOk(regions, sig, bad, next.firsts, f)
    ensures ScopesApart(regions, next.entries)
  {
    forall f | f in next.entries
      ensures EntryOk(regions, sig, bad, next.firsts, f)
    {
      if f in plan.entries {
        StillOk(regions, sig, bad, plan.firsts, next.firsts, f);
      }
    }
    forall j, k | 0 <= j < k < |next.entries| && next.entries[j].parent == next.entries[k].parent
      ensures ApartAt(regions, next.entries[j].region, next.entries[k].region)
    {
      assert next.entries[j] == plan.entries[j];
      if k < |plan.entries| {
        assert next.entries[k] == plan.entries[k];
      }
    }
  }

  /** Region `i` becomes a call of a known template. */
  lemma ChooseKnown(regions: seq<Region>, sig: seq<Option<Key>>, bad: set<nat>, plan: Plan, defOf: map<Key, nat>,
                    scopes: seq<Scope>, scope: Scope, stack: seq<nat>)
    requires |sig| == |regions| && stack != [] && Walking(regions, sig, bad, plan, defOf, scopes, scope, stack)
    requires var i := stack[|stack| - 1];
      i < |regions| && sig[i].Some? && sig[i] != scope.own && i !in bad && sig[i].value in defOf
    ensures var i := stack[|stack| - 1];
      Walking(regions, sig, bad, plan.(entries := plan.entries + [Entry(i, defOf[sig[i].value], scope.parent)]),
              defOf, scopes, scope, stack[..|stack| - 1])
  {
    var (i, rest) := (stack[|stack| - 1], stack[..|stack| - 1]);
    var e := Entry(i, defOf[sig[i].value], scope.parent);
    var next := plan.(entries := plan.entries + [e]);
    ClearTop(regions, plan, scope.parent, stack);
    Chosen(regions, sig, bad, plan, next, e);
    forall j | 0 <= j < |scopes|
      ensures Waiting(regions, sig, next, scopes[j])
    {
      StillWaiting(regions, sig, plan, next, e, scopes[j]);
    }
  }

  /** Region `i` is the first of a new template, whose body is a new scope. */
  lemma ChooseNew(regions: seq<Region>, sig: seq<Option<Key>>, bad: set<nat>, plan: Plan, defOf: map<Key, nat>,
                  scopes: seq<Scope>, scope: Scope, stack: seq<nat>, calls: seq<nat>)
    requires |sig| == |regions| && stack != [] && Walking(regions, sig, bad, plan, defOf, scopes, scope, stack)
    requires Distinct(scopes)
    requires var i := stack[|stack| - 1];
      && i < |regions| && sig[i].Some? && sig[i] != scope.own && i !in bad && sig[i].value !in defOf
      && AllApart(regions, calls) && forall x :: x in calls ==> x < |regions| && Inside(regions[x], regions[i])
    ensures var (i, d) := (stack[|stack| - 1], |plan.firsts|);
      && Walking(regions, sig, bad, Plan(plan.firsts + [i], plan.entries + [Entry(i, d, scope.parent)]),
                 defOf[sig[i].value := d], scopes + [Scope(Some(d), sig[i], calls)], scope, stack[..|stack| - 1])
      && Distinct(scopes + [Scope(Some(d), sig[i], calls)])
  {
    var (i, d, rest) := (stack[|stack| - 1], |plan.firsts|, stack[..|stack| - 1]);
    var (e, s) := (Entry(i, d, scope.parent), Scope(Some(d), sig[i], calls));
    var next := Plan(plan.firsts + [i], plan.entries + [e]);
    ClearTop(regions, plan, scope.parent, stack);
    Chosen(regions, sig, bad, plan, next, e);
    forall j | 0 <= j < |scopes|
      ensures Waiting(regions, sig, next, scopes[j]) && scopes[j].parent != s.parent
    {
      StillWaiting(regions, sig, plan, next, e, scopes[j]);
      assert Waiting(regions, sig, plan, scopes[j]);
    }
    NewWaiting(regions, sig, bad, plan, next, e, s, i);
    hide ApartAt;
    NewDefs(regions, sig, plan.firsts, defOf, i);
  }

  lemma NewWaiting(regions: seq<Region>, sig: seq<Option<Key>>, bad: set<nat>, plan: Plan, next: Plan, e: Entry,
                   s: Scope, i: nat)
    requires |sig| == |regions| && PlanOk(regions, sig, bad, plan) && i < |regions|
    requires next == Plan(plan.firsts + [i], plan.entries + [e]) && s.parent == Some(|plan.firsts|) && s.own == sig[i]
    requires e.parent.Some? ==> e.parent.value < |plan.firsts|
    requires AllApart(regions, s.start) && forall x :: x in s.start ==> x < |regions| && Inside(regions[x], regions[i])
    ensures Waiting(regions, sig, next, s)
  {
    forall f | f in next.entries
      ensures f.parent != s.parent
    {
      assert f in plan.entries ==> EntryOk(regions, sig, bad, plan.firsts, f);
    }
  }

  lemma NewDefs(regions: seq<Region>, sig: seq<Option<Key>>, firsts: seq<nat>, defOf: map<Key, nat>, i: nat)
    requires |sig| == |regions| && DefsOk(regions, sig, firsts, defOf) && i < |regions| && sig[i].Some?
      && sig[i].value !in defOf
    ensures DefsOk(regions, sig, firsts + [i], defOf[sig[i].value := |firsts|])
    ensures forall d :: 0 <= d < |firsts| ==> sig[firsts[d]] != sig[i]
  {
  }

  /** Region `i` stays inline: look at the calls it made. */
  lemma Descend(regions: seq<Region>, sig: seq<Option<Key>>, bad: set<nat>, plan: Plan, defOf: map<Key, nat>,
                scopes: seq<Scope>, scope: Scope, stack: seq<nat>, calls: seq<nat>)
    requires |sig| == |regions| && stack != [] && Walking(regions, sig, bad, plan, defOf, scopes, scope, stack)
    requires var i := stack[|stack| - 1];
      && i < |regions| && AllApart(regions, calls) && forall x :: x in calls ==>
        x < |regions| && Inside(regions[x], regions[i])
    ensures Walking(regions, sig, bad, plan, defOf, scopes, scope, stack[..|stack| - 1] + calls)
  {
    var (i, rest) := (stack[|stack| - 1], stack[..|stack| - 1]);
    ClearTop(regions, plan, scope.parent, stack);
    var list := rest + calls;
    forall j, k | 0 <= j < k < |list|
      ensures ApartAt(regions, list[j], list[k])
    {
      if k < |rest| {
        assert ApartAt(regions, rest[j], rest[k]);
      } else if j < |rest| {
        assert list[j] in rest && list[k] in calls && ApartAt(regions, i, list[j]);
        ApartFromParts(regions[list[j]], regions[i], regions[list[k]]);
      } else {
        assert ApartAt(regions, calls[j - |rest|], calls[k - |rest|]);
      }
    }
    forall x | x in list
      ensures InScope(regions, plan.firsts, scope.parent, x)
    {
      if x in calls && scope.parent.Some? {
        InsideTrans(regions[x], regions[i], regions[plan.firsts[scope.parent.value]]);
      }
    }
    forall e, x | e in plan.entries && e.parent == scope.parent && x in list
      ensures ApartAt(regions, e.region, x)
    {
      if x in calls {
        assert ApartAt(regions, e.region, i);
        ApartFromParts(regions[e.region], regions[i], regions[x]);
      }
    }
  }

  // ----- how much is left -----

  ghost predicate Bounded(n: nat, scopes: seq<Scope>) {
    forall j, k :: 0 <= j < |scopes| && 0 <= k < |scopes[j].start| ==> scopes[j].start[k] < n
  }

  ghost function Load(n: nat, scopes: seq<Scope>): nat
    requires Bounded(n, scopes)
  {
    if scopes == [] then 0
    else
      var s := scopes[|scopes| - 1];
      assert forall k :: 0 <= k < |s.start| ==> s.start[k] < n;
      assert Bounded(n, scopes[..|scopes| - 1]);
      Load(n, scopes[..|scopes| - 1]) + Mass(n, s.start)
  }

  lemma LoadPush(n: nat, scopes: seq<Scope>, s: Scope)
    requires Bounded(n, scopes) && forall k :: 0 <= k < |s.start| ==> s.start[k] < n
    ensures Bounded(n, scopes + [s]) && Load(n, scopes + [s]) == Load(n, scopes) + Mass(n, s.start)
  {
    assert (scopes + [s])[..|scopes|] == scopes;
  }

  /** The calls a region made weigh less than the region. */
  lemma KidsMass(regions: seq<Region>, i: nat)
    requires Parented(regions) && i < |regions|
    ensures var kids := Kids(regions, Some(i), |regions|);
      (forall k :: 0 <= k < |kids| ==> kids[k] < |regions|) && Mass(|regions|, kids) < Pow2(|regions| - i)
  {
    KidsRise(regions, Some(i), |regions|);
    KidsLater(regions, Some(i), i, Kids(regions, Some(i), |regions|));
    MassOfLater(|regions|, Kids(regions, Some(i), |regions|), i);
  }

  lemma KidsLater(regions: seq<Region>, p: Option<nat>, i: nat, kids: seq<nat>)
    requires Parented(regions) && p == Some(i) && forall k :: 0 <= k < |kids| ==>
      kids[k] < |regions| && regions[kids[k]].parent == p
    ensures forall k :: 0 <= k < |kids| ==> i < kids[k] < |regions|
  {
  }

  lemma MassOfLater(n: nat, list: seq<nat>, i: nat)
    requires i < n && forall k :: 0 <= k < |list| ==> i < list[k] < n
    requires forall j, k :: 0 <= j < k < |list| ==> list[j] < list[k]
    ensures Mass(n, list) < Pow2(n - i)
  {
    assert Pow2(1) == 2;
    MassBelow(n, list, i + 1, n);
  }

  /** The stack and the scopes hold regions only. */
  ghost predicate Tame(n: nat, scopes: seq<Scope>, stack: seq<nat>) {
    Bounded(n, scopes) && forall k :: 0 <= k < |stack| ==> stack[k] < n
  }

  ghost function Left(n: nat, scopes: seq<Scope>, stack: seq<nat>): nat
    requires Tame(n, scopes, stack)
  {
    Load(n, scopes) + Mass(n, stack)
  }

  lemma LeftPop(n: nat, scopes: seq<Scope>, stack: seq<nat>)
    requires Tame(n, scopes, stack) && stack != []
    ensures Tame(n, scopes, stack[..|stack| - 1]) && Left(n, scopes, stack[..|stack| - 1]) < Left(n, scopes, stack)
  {
  }

  lemma LeftNew(regions: seq<Region>, scopes: seq<Scope>, stack: seq<nat>, s: Scope)
    requires Nested(regions) && Tame(|regions|, scopes, stack) && stack != []
    requires s.start == Kids(regions, Some(stack[|stack| - 1]), |regions|)
    ensures Tame(|regions|, scopes + [s], stack[..|stack| - 1])
    ensures Left(|regions|, scopes + [s], stack[..|stack| - 1]) < Left(|regions|, scopes, stack)
  {
    KidsMass(regions, stack[|stack| - 1]);
    LoadPush(|regions|, scopes, s);
  }

  lemma LeftDown(regions: seq<Region>, scopes: seq<Scope>, stack: seq<nat>)
    requires Nested(regions) && Tame(|regions|, scopes, stack) && stack != []
    ensures var (rest, kids) := (stack[..|stack| - 1], Kids(regions, Some(stack[|stack| - 1]), |regions|));
      && Tame(|regions|, scopes, rest + Reverse(kids))
      && Left(|regions|, scopes, rest + Reverse(kids)) < Left(|regions|, scopes, stack)
  {
    var (rest, kids) := (stack[..|stack| - 1], Kids(regions, Some(stack[|stack| - 1]), |regions|));
    KidsMass(regions, stack[|stack| - 1]);
    ReverseMass(|regions|, kids);
    MassAppend(|regions|, rest, Reverse(kids));
  }

  lemma LeftOpen(n: nat, scopes: seq<Scope>)
    requires Tame(n, scopes, []) && scopes != []
    ensures var (s, rest) := (scopes[|scopes| - 1], scopes[..|scopes| - 1]);
      Tame(n, rest, Reverse(s.start)) && Left(n, rest, Reverse(s.start)) == Left(n, scopes, [])
  {
    var s := scopes[|scopes| - 1];
    assert forall k :: 0 <= k < |s.start| ==> s.start[k] < n;
    ReverseMass(n, s.start);
  }

  /** Between two scopes. */
  ghost predicate Idle(regions: seq<Region>, sig: seq<Option<Key>>, bad: set<nat>, plan: Plan, defOf: map<Key, nat>,
                       scopes: seq<Scope>)
    requires |sig| == |regions|
  {
    && PlanOk(regions, sig, bad, plan) && DefsOk(regions, sig, plan.firsts, defOf)
    && AllWaiting(regions, sig, plan, scopes) && Distinct(scopes)
  }

  lemma StartWalk(regions: seq<Region>, sig: seq<Option<Key>>, bad: set<nat>)
    requires |sig| == |regions| && Nested(regions)
    ensures var scopes := [Scope(None, None, Kids(regions, None, |regions|))];
      Idle(regions, sig, bad, Plan([], []), map[], scopes) && Tame(|regions|, scopes, [])
  {
    KidsApart(regions, None);
    KidsRise(regions, None, |regions|);
  }

  lemma CloseScope(regions: seq<Region>, sig: seq<Option<Key>>, bad: set<nat>, plan: Plan, defOf: map<Key, nat>,
                   scopes: seq<Scope>, scope: Scope)
    requires |sig| == |regions| && Walking(regions, sig, bad, plan, defOf, scopes, scope, []) && Distinct(scopes)
    ensures Idle(regions, sig, bad, plan, defOf, scopes)
  {
  }

  lemma IdlePlan(regions: seq<Region>, sig: seq<Option<Key>>, bad: set<nat>, plan: Plan, defOf: map<Key, nat>,
                 scopes: seq<Scope>)
    requires |sig| == |regions| && Idle(regions, sig, bad, plan, defOf, scopes)
    ensures PlanOk(regions, sig, bad, plan)
  {
  }

  lemma ScopeInRange(regions: seq<Region>, scopes: seq<Scope>, stack: seq<nat>)
    requires Tame(|regions|, scopes, stack) && stack != []
    ensures stack[|stack| - 1] < |regions|
  {
  }

  // ----- nothing is missed -----

  function Members(list: seq<nat>): set<nat> {
    set x | x in list
  }

  ghost function Queued(scopes: seq<Scope>): set<nat> {
    if scopes == [] then {} else Queued(scopes[..|scopes| - 1]) + Members(scopes[|scopes| - 1].start)
  }

  ghost predicate IsCall(plan: Plan, x: nat) {
    exists e :: e in plan.entries && e.region == x
  }

  /** The walk looks at what `x` is part of: the top level, an inline region, or the body of a template. */
  ghost predicate Visible(regions: seq<Region>, plan: Plan, inline: set<nat>, x: nat)
    requires x < |regions|
  {
    regions[x].parent.None? || regions[x].parent.value in inline || regions[x].parent.value in plan.firsts
  }

  /** Every visible region is a call, inline, or still `pending`. */
  ghost predicate Reached(regions: seq<Region>, plan: Plan, inline: set<nat>, pending: set<nat>) {
    forall x :: 0 <= x < |regions| && Visible(regions, plan, inline, x) ==>
      IsCall(plan, x) || x in inline || x in pending
  }

  /** A region stays inline when its form does not repeat, it was marked bad, or it has the key of the template it
      is part of. */
  ghost predicate StaysInline(regions: seq<Region>, sig: seq<Option<Key>>, bad: set<nat>, plan: Plan, x: nat)
    requires |sig| == |regions|
  {
    x < |regions| && (Repeats(sig, x) && x !in bad ==>
      exists d :: 0 <= d < |plan.firsts| && plan.firsts[d] < |regions| && sig[x] == sig[plan.firsts[d]]
                  && Inside(regions[x], regions[plan.firsts[d]]))
  }

  ghost predicate Missed(regions: seq<Region>, sig: seq<Option<Key>>, bad: set<nat>, plan: Plan, inline: set<nat>)
    requires |sig| == |regions|
  {
    forall x :: x in inline ==> StaysInline(regions, sig, bad, plan, x)
  }

  lemma {:induction false} KidsAll(regions: seq<Region>, p: Option<nat>, n: nat)
    requires n <= |regions|
    ensures forall x :: 0 <= x < n && regions[x].parent == p ==> x in Kids(regions, p, n)
  {
    if n > 0 {
      KidsAll(regions, p, n - 1);
    }
  }

  lemma QueuedPush(scopes: seq<Scope>, s: Scope)
    ensures Queued(scopes + [s]) == Queued(scopes) + Members(s.start)
  {
    assert (scopes + [s])[..|scopes|] == scopes;
  }

  lemma {:induction false} ReverseAll(list: seq<nat>)
    ensures Members(Reverse(list)) == Members(list)
    decreases |list|
  {
    if list != [] {
      ReverseAll(list[..|list| - 1]);
      assert list == list[..|list| - 1] + [list[|list| - 1]];
      assert forall x :: x in list <==> x in Members(list[..|list| - 1]) || x == list[|list| - 1];
      assert forall x :: x in Reverse(list) <==> x in Members(Reverse(list[..|list| - 1])) || x == list[|list| - 1];
    }
  }

  lemma PopMembers(list: seq<nat>)
    requires list != []
    ensures Members(list) == Members(list[..|list| - 1]) + {list[|list| - 1]}
  {
    assert list == list[..|list| - 1] + [list[|list| - 1]];
  }

  lemma AppendMembers(a: seq<nat>, b: seq<nat>)
    ensures Members(a + b) == Members(a) + Members(b)
  {
  }

  /** Region `i`, taken off the stack, became a call, of a template it may be the first of. */
  lemma ReachedCall(regions: seq<Region>, plan: Plan, next: Plan, inline: set<nat>, scopes: seq<Scope>,
                    more: seq<Scope>, stack: seq<nat>, e: Entry)
    requires Reached(regions, plan, inline, Queued(scopes) + Members(stack)) && stack != []
    requires e.region == stack[|stack| - 1] < |regions| && next.entries == plan.entries + [e]
    requires (next.firsts == plan.firsts && more == scopes)
      || (next.firsts == plan.firsts + [e.region]
          && exists s: Scope :: more == scopes + [s] && s.start == Kids(regions, Some(e.region), |regions|))
    ensures Reached(regions, next, inline, Queued(more) + Members(stack[..|stack| - 1]))
  {
    PopMembers(stack);
    KidsAll(regions, Some(e.region), |regions|);
    if more != scopes {
      var s: Scope :| more == scopes + [s] && s.start == Kids(regions, Some(e.region), |regions|);
      QueuedPush(scopes, s);
    }
    forall x | 0 <= x < |regions| && Visible(regions, next, inline, x)
      ensures IsCall(next, x) || x in inline || x in Queued(more) + Members(stack[..|stack| - 1])
    {
      assert e in next.entries;
      if IsCall(plan, x) {
        var f :| f in plan.entries && f.region == x;
        assert f in next.entries;
      }
      if !Visible(regions, plan, inline, x) {
        assert regions[x].parent == Some(e.region);
      }
    }
  }

  /** Region `i`, taken off the stack, stays inline and its calls are looked at. */
  lemma ReachedInline(regions: seq<Region>, plan: Plan, inline: set<nat>, queued: set<nat>, stack: seq<nat>)
    requires Reached(regions, plan, inline, queued + Members(stack)) && stack != [] && stack[|stack| - 1] < |regions|
    ensures var i := stack[|stack| - 1];
      Reached(regions, plan, inline + {i},
        queued + Members(stack[..|stack| - 1] + Reverse(Kids(regions, Some(i), |regions|))))
  {
    var i := stack[|stack| - 1];
    var kids := Kids(regions, Some(i), |regions|);
    PopMembers(stack);
    KidsAll(regions, Some(i), |regions|);
    ReverseAll(kids);
    AppendMembers(stack[..|stack| - 1], Reverse(kids));
    forall x | 0 <= x < |regions| && Visible(regions, plan, inline + {i}, x)
      ensures IsCall(plan, x) || x in inline + {i} || x in queued + Members(stack[..|stack| - 1] + Reverse(kids))
    {
      if !Visible(regions, plan, inline, x) {
        assert regions[x].parent == Some(i) && x in Members(kids);
      }
    }
  }

  lemma MissedMore(regions: seq<Region>, sig: seq<Option<Key>>, bad: set<nat>, plan: Plan, next: Plan, inline: set<nat>)
    requires |sig| == |regions| && Missed(regions, sig, bad, plan, inline) && plan.firsts <= next.firsts
    ensures Missed(regions, sig, bad, next, inline)
  {
    forall x | x in inline
      ensures StaysInline(regions, sig, bad, next, x)
    {
      assert StaysInline(regions, sig, bad, plan, x);
      if Repeats(sig, x) && x !in bad {
        var d :| 0 <= d < |plan.firsts| && plan.firsts[d] < |regions| && sig[x] == sig[plan.firsts[d]]
                 && Inside(regions[x], regions[plan.firsts[d]]);
        assert next.firsts[d] == plan.firsts[d];
      }
    }
  }

  lemma MissedInline(regions: seq<Region>, sig: seq<Option<Key>>, bad: set<nat>, plan: Plan, defOf: map<Key, nat>,
                     scopes: seq<Scope>, scope: Scope, stack: seq<nat>, inline: set<nat>)
    requires |sig| == |regions| && stack != [] && Walking(regions, sig, bad, plan, defOf, scopes, scope, stack)
    requires Missed(regions, sig, bad, plan, inline)
    requires var i := stack[|stack| - 1]; i < |regions| && !(Repeats(sig, i) && sig[i] != scope.own && i !in bad)
    requires scope.parent == None ==> scope.own == None
    ensures Missed(regions, sig, bad, plan, inline + {stack[|stack| - 1]})
  {
    var i := stack[|stack| - 1];
    ClearTop(regions, plan, scope.parent, stack);
    if Repeats(sig, i) && i !in bad {
      var d := scope.parent.value;
      assert sig[i] == sig[plan.firsts[d]] && Inside(regions[i], regions[plan.firsts[d]]);
    }
  }

  /** Nothing is left to look at. */
  ghost predicate Complete(regions: seq<Region>, sig: seq<Option<Key>>, bad: set<nat>, plan: Plan, inline: set<nat>)
    requires |sig| == |regions|
  {
    Reached(regions, plan, inline, {}) && Missed(regions, sig, bad, plan, inline)
  }

  lemma {:induction false} ReachedStart(regions: seq<Region>)
    ensures Reached(regions, Plan([], []), {}, Queued([Scope(None, None, Kids(regions, None, |regions|))]))
  {
    var s := Scope(None, None, Kids(regions, None, |regions|));
    KidsAll(regions, None, |regions|);
    QueuedPush([], s);
    assert [] + [s] == [s];
  }

  lemma ReachedOpen(regions: seq<Region>, plan: Plan, inline: set<nat>, scopes: seq<Scope>)
    requires scopes != [] && Reached(regions, plan, inline, Queued(scopes))
    ensures var (s, rest) := (scopes[|scopes| - 1], scopes[..|scopes| - 1]);
      Reached(regions, plan, inline, Queued(rest) + Members(Reverse(s.start)))
  {
    ReverseAll(scopes[|scopes| - 1].start);
  }

  /** The top level has no key of its own. */
  ghost predicate TopLevel(scopes: seq<Scope>) {
    forall j :: 0 <= j < |scopes| && scopes[j].parent == None ==> scopes[j].own == None
  }

  /** The walk: scopes top-down, calls in order; a region whose form repeats becomes a call, and the first of its
      form a template whose body is walked later; any other region is looked into. */
  method Walk(regions: seq<Region>, sig: seq<Option<Key>>, children: seq<seq<nat>>, roots: seq<nat>, bad: set<nat>)
    returns (plan: Plan, ghost inline: set<nat>)
    requires |sig| == |regions| == |children| && Nested(regions) && roots == Kids(regions, None, |regions|)
    requires forall p :: 0 <= p < |regions| ==> children[p] == Kids(regions, Some(p), |regions|)
    ensures PlanOk(regions, sig, bad, plan) && Complete(regions, sig, bad, plan, inline)
  {
    hide Walking, Idle, Tame, Left, Nested, AllApart, PlanOk, Distinct, Kids, Repeats, Reached, Missed, Queued, Members;
    var defOf: map<Key, nat> := map[];
    var scopes := [Scope(None, None, roots)];
    plan := Plan([], []);
    inline := {};
    StartWalk(regions, sig, bad);
    ReachedStart(regions);
    MissedNone(regions, sig, bad);
    ghost var n := |regions|;
    while scopes != []
      invariant Idle(regions, sig, bad, plan, defOf, scopes) && Tame(n, scopes, [])
      invariant Reached(regions, plan, inline, Queued(scopes)) && Missed(regions, sig, bad, plan, inline)
        && TopLevel(scopes)
      decreases Left(n, scopes, []), |scopes|
    {
      var scope := scopes[|scopes| - 1];
      ghost var (left, count) := (Left(n, scopes, []), |scopes|);
      OpenScope(regions, sig, bad, plan, defOf, scopes);
      LeftOpen(n, scopes);
      ReachedOpen(regions, plan, inline, scopes);
      scopes := scopes[..|scopes| - 1];
      var stack: seq<nat> := Reverse(scope.start);
      while stack != []
        invariant Walking(regions, sig, bad, plan, defOf, scopes, scope, stack) && Distinct(scopes)
        invariant Tame(n, scopes, stack)
        invariant Reached(regions, plan, inline, Queued(scopes) + Members(stack))
          && Missed(regions, sig, bad, plan, inline)
        invariant TopLevel(scopes) && (scope.parent == None ==> scope.own == None)
        invariant Left(n, scopes, stack) < left || (Left(n, scopes, stack) == left && |scopes| < count)
        decreases Left(n, scopes, stack)
      {
        var i := stack[|stack| - 1];
        ScopeInRange(regions, scopes, stack);
        CallsOf(regions, i);
        ghost var (was, before) := (plan, scopes);
        if Repeats(sig, i) && sig[i] != scope.own && i !in bad {
          var key := SigOf(sig, i);
          if key in defOf {
            ChooseKnown(regions, sig, bad, plan, defOf, scopes, scope, stack);
            LeftPop(n, scopes, stack);
            plan := plan.(entries := plan.entries + [Entry(i, defOf[key], scope.parent)]);
          } else {
            var d := |plan.firsts|;
            ChooseNew(regions, sig, bad, plan, defOf, scopes, scope, stack, children[i]);
            LeftNew(regions, scopes, stack, Scope(Some(d), sig[i], children[i]));
            plan := Plan(plan.firsts + [i], plan.entries + [Entry(i, d, scope.parent)]);
            defOf := defOf[key := d];
            scopes := scopes + [Scope(Some(d), Some(key), children[i])];
          }
          ReachedCall(regions, was, plan, inline, before, scopes, stack, plan.entries[|plan.entries| - 1]);
          MissedMore(regions, sig, bad, was, plan, inline);
          stack := stack[..|stack| - 1];
        } else {
          ReachedInline(regions, plan, inline, Queued(scopes), stack);
          MissedInline(regions, sig, bad, plan, defOf, scopes, scope, stack, inline);
          inline := inline + {i};
          Descend(regions, sig, bad, plan, defOf, scopes, scope, stack, Reverse(children[i]));
          LeftDown(regions, scopes, stack);
          stack := stack[..|stack| - 1] + Reverse(children[i]);
        }
      }
      CloseScope(regions, sig, bad, plan, defOf, scopes, scope);
      assert Queued(scopes) + Members([]) == Queued(scopes) by { NoMembers(); }
    }
    IdlePlan(regions, sig, bad, plan, defOf, scopes);
    NoMembers();
  }

  lemma NoMembers()
    ensures Members([]) == {} && Queued([]) == {}
  {
  }

  lemma MissedNone(regions: seq<Region>, sig: seq<Option<Key>>, bad: set<nat>)
    requires |sig| == |regions|
    ensures Missed(regions, sig, bad, Plan([], []), {})
  {
  }

  /** The key of a region whose form repeats. */
  function SigOf(sig: seq<Option<Key>>, i: nat): (k: Key)
    requires i < |sig| && Repeats(sig, i)
    ensures sig[i] == Some(k)
  {
    sig[i].value
  }

  lemma OpenScope(regions: seq<Region>, sig: seq<Option<Key>>, bad: set<nat>, plan: Plan, defOf: map<Key, nat>,
                  scopes: seq<Scope>)
    requires |sig| == |regions| && scopes != [] && Idle(regions, sig, bad, plan, defOf, scopes)
    ensures var (s, rest) := (scopes[|scopes| - 1], scopes[..|scopes| - 1]);
      Walking(regions, sig, bad, plan, defOf, rest, s, Reverse(s.start)) && Distinct(rest)
  {
    var (s, rest) := (scopes[|scopes| - 1], scopes[..|scopes| - 1]);
    assert Waiting(regions, sig, plan, s);
    ReverseApart(regions, s.start);
    ReverseMembers(s.start);
    forall j | 0 <= j < |rest|
      ensures Waiting(regions, sig, plan, rest[j])
    {
      assert rest[j] == scopes[j];
    }
  }

  lemma CallsOf(regions: seq<Region>, i: nat)
    requires Nested(regions) && i < |regions|
    ensures var kids := Kids(regions, Some(i), |regions|);
      && AllApart(regions, kids) && (forall x :: x in kids ==> x < |regions| && Inside(regions[x], regions[i]))
      && AllApart(regions, Reverse(kids)) && forall x :: x in Reverse(kids) ==>
        x < |regions| && Inside(regions[x], regions[i])
  {
    KidsApart(regions, Some(i));
    ReverseApart(regions, Kids(regions, Some(i), |regions|));
    ReverseMembers(Kids(regions, Some(i), |regions|));
  }

  // ----- checking the plan, and the result -----

  /** A template: the stretch of its first call, and that call's plugs. */
  datatype Template = Template(start: Mark, end: Mark, plugs: seq<nat>)

  /** A call of template `def`, at the top level or in the body of template `parent`. */
  datatype Call = Call(def: nat, parent: Option<nat>, start: Mark, end: Mark, plugs: seq<nat>)

  /** Region `i` has exactly the form of region `f`. */
  ghost predicate Exact(c: Flat, regions: seq<Region>, f: nat, i: nat) {
    f < |regions| && i < |regions| && SameForm(c, regions[f].start, regions[f].end, regions[i].start, regions[i].end)
  }

  ghost predicate Signed(c: Flat, regions: seq<Region>, hash: Shape -> Digest, maxRows: nat, sig: seq<Option<Key>>) {
    |sig| == |regions| && forall i :: 0 <= i < |regions| ==> Signs(c, regions, hash, maxRows, i, sig[i])
  }

  /** A signed region has a form. */
  lemma SignedNamed(c: Flat, regions: seq<Region>, hash: Shape -> Digest, maxRows: nat, sig: seq<Option<Key>>, i: nat)
    requires Signed(c, regions, hash, maxRows, sig) && i < |regions| && sig[i].Some?
    ensures regions[i].closed && Spanning(c, regions[i].start, regions[i].end)
      && Nameable(c, regions[i].start, regions[i].end)
    ensures sig[i].value == Key(hash(ShapeIn(c, regions[i].start, regions[i].end)), regions[i].Rows())
      && regions[i].Rows() >= MinRows
  {
    assert Signs(c, regions, hash, maxRows, i, sig[i]);
  }

  /** The regions that cannot be templated under the template of their key. */
  ghost predicate Mismatched(c: Flat, regions: seq<Region>, sig: seq<Option<Key>>, bad: set<nat>)
    requires |sig| == |regions|
  {
    forall i :: i in bad ==> i < |regions| && exists f ::
      0 <= f < |regions| && sig[f] == sig[i] && !Exact(c, regions, f, i)
  }

  ghost predicate FormIs(c: Flat, regions: seq<Region>, i: nat, form: (Shape, seq<nat>)) {
    && i < |regions| && Spanning(c, regions[i].start, regions[i].end)
    && form == (ShapeIn(c, regions[i].start, regions[i].end), PlugsIn(c, regions[i].start, regions[i].end))
  }

  method Forms(c: Flat, regions: seq<Region>, hash: Shape -> Digest, maxRows: nat, sig: seq<Option<Key>>, bad: set<nat>,
               plan: Plan)
    returns (forms: seq<(Shape, seq<nat>)>)
    requires Signed(c, regions, hash, maxRows, sig) && PlanOk(regions, sig, bad, plan)
    ensures |forms| == |plan.firsts| && forall d :: 0 <= d < |forms| ==> FormIs(c, regions, plan.firsts[d], forms[d])
  {
    forms := [];
    for d := 0 to |plan.firsts|
      invariant |forms| == d && forall k :: 0 <= k < d ==> FormIs(c, regions, plan.firsts[k], forms[k])
    {
      SignedNamed(c, regions, hash, maxRows, sig, plan.firsts[d]);
      hide Signed, ShapeIn, PlugsIn, Nameable;
      var form := Normalized(c, regions[plan.firsts[d]].start, regions[plan.firsts[d]].end);
      forms := forms + [form.value];
    }
  }

  /** Each call's plugs, when it is exactly its template. */
  method Check(c: Flat, regions: seq<Region>, hash: Shape -> Digest, maxRows: nat, sig: seq<Option<Key>>, bad: set<nat>,
               plan: Plan, forms: seq<(Shape, seq<nat>)>)
    returns (checked: seq<Option<seq<nat>>>)
    requires Signed(c, regions, hash, maxRows, sig) && PlanOk(regions, sig, bad, plan)
    requires |forms| == |plan.firsts| && forall d :: 0 <= d < |forms| ==> FormIs(c, regions, plan.firsts[d], forms[d])
    ensures |checked| == |plan.entries|
    ensures forall k :: 0 <= k < |checked| ==> Checks(c, regions, plan, plan.entries[k], checked[k])
  {
    hide *;
    checked := [];
    for k := 0 to |plan.entries|
      invariant |checked| == k && forall j :: 0 <= j < k ==> Checks(c, regions, plan, plan.entries[j], checked[j])
    {
      EntryForms(c, regions, hash, maxRows, sig, bad, plan, k);
      var e := plan.entries[k];
      var plugs := CheckCall(c, regions, plan.firsts[e.def], e.region, forms[e.def]);
      IsChecked(c, regions, plan, e, plugs);
      checked := checked + [plugs];
    }
  }

  lemma EntryForms(c: Flat, regions: seq<Region>, hash: Shape -> Digest, maxRows: nat, sig: seq<Option<Key>>,
                   bad: set<nat>, plan: Plan, k: nat)
    requires Signed(c, regions, hash, maxRows, sig) && PlanOk(regions, sig, bad, plan) && k < |plan.entries|
    ensures var e := plan.entries[k];
      && e.def < |plan.firsts| && HasForm(c, regions, plan.firsts[e.def]) && HasForm(c, regions, e.region)
  {
    var e := plan.entries[k];
    assert EntryOk(regions, sig, bad, plan.firsts, e);
    SignedNamed(c, regions, hash, maxRows, sig, plan.firsts[e.def]);
    SignedNamed(c, regions, hash, maxRows, sig, e.region);
  }

  ghost predicate HasForm(c: Flat, regions: seq<Region>, i: nat) {
    i < |regions| && Spanning(c, regions[i].start, regions[i].end) && Nameable(c, regions[i].start, regions[i].end)
  }

  /** Region `i`'s plugs, when it has the form of region `f`. */
  method CheckCall(c: Flat, regions: seq<Region>, f: nat, i: nat, form: (Shape, seq<nat>))
    returns (plugs: Option<seq<nat>>)
    requires HasForm(c, regions, f) && HasForm(c, regions, i) && FormIs(c, regions, f, form)
    ensures plugs == if Exact(c, regions, f, i) then Some(PlugsIn(c, regions[i].start, regions[i].end)) else None
  {
    hide ShapeIn, PlugsIn, Nameable;
    if f == i {
      return Some(form.1);
    }
    var mine := Normalized(c, regions[i].start, regions[i].end);
    var (shape, args) := mine.value;
    plugs := if shape.rows == form.0.rows && shape.wits == form.0.wits then Some(args) else None;
  }

  lemma IsChecked(c: Flat, regions: seq<Region>, plan: Plan, e: Entry, plugs: Option<seq<nat>>)
    requires e.def < |plan.firsts| && HasForm(c, regions, e.region)
    requires plugs == if Exact(c, regions, plan.firsts[e.def], e.region)
      then Some(PlugsIn(c, regions[e.region].start, regions[e.region].end)) else None
    ensures Checks(c, regions, plan, e, plugs)
  {
  }

  ghost predicate Checks(c: Flat, regions: seq<Region>, plan: Plan, e: Entry, plugs: Option<seq<nat>>) {
    && e.def < |plan.firsts| && e.region < |regions|
    && (plugs.Some? <==> Exact(c, regions, plan.firsts[e.def], e.region))
    && (plugs.Some? ==> Spanning(c, regions[e.region].start, regions[e.region].end)
                        && plugs.value == PlugsIn(c, regions[e.region].start, regions[e.region].end))
  }

  /** What the detection found: `plan`, with every call exactly its template. */
  ghost predicate Found(c: Flat, regions: seq<Region>, sig: seq<Option<Key>>, bad: set<nat>, plan: Plan,
                        templates: seq<Template>, calls: seq<Call>)
    requires |sig| == |regions|
  {
    && PlanOk(regions, sig, bad, plan)
    && |templates| == |plan.firsts| && |calls| == |plan.entries|
    && (forall d :: 0 <= d < |templates| ==> TemplateOf(c, regions[plan.firsts[d]], templates[d]))
    && (forall k :: 0 <= k < |calls| ==> CallOf(c, regions, plan, plan.entries[k], calls[k]))
  }

  ghost predicate TemplateOf(c: Flat, r: Region, t: Template) {
    Spanning(c, r.start, r.end) && t == Template(r.start, r.end, PlugsIn(c, r.start, r.end))
  }

  ghost predicate CallOf(c: Flat, regions: seq<Region>, plan: Plan, e: Entry, call: Call) {
    && e.def < |plan.firsts| && Exact(c, regions, plan.firsts[e.def], e.region)
    && var r := regions[e.region];
       call == Call(e.def, e.parent, r.start, r.end, PlugsIn(c, r.start, r.end))
  }

  // ----- forms that occur twice -----

  /** Region `i` is a closed call of 8 to `maxRows` rows with a form. */
  ghost predicate Sizeable(c: Flat, regions: seq<Region>, maxRows: nat, i: nat) {
    && i < |regions| && regions[i].closed && 8 <= regions[i].end.rows - regions[i].start.rows <= maxRows
    && HasForm(c, regions, i)
  }

  /** Two such calls, as large as each other and of one form. */
  ghost predicate Twins(c: Flat, regions: seq<Region>, maxRows: nat, i: nat, j: nat) {
    && i != j && Sizeable(c, regions, maxRows, i) && Sizeable(c, regions, maxRows, j)
    && var (a, b) := (regions[i], regions[j]);
       && a.end.rows - a.start.rows == b.end.rows - b.start.rows
         && a.end.wits - a.start.wits == b.end.wits - b.start.wits
       && a.end.vars - a.start.vars == b.end.vars - b.start.vars
       && ShapeIn(c, a.start, a.end) == ShapeIn(c, b.start, b.end)
  }

  /** Region `f` has the digest and the number of rows of region `i`. */
  ghost predicate Alike(c: Flat, regions: seq<Region>, hash: Shape -> Digest, f: nat, i: nat) {
    && HasForm(c, regions, f) && HasForm(c, regions, i)
    && hash(ShapeIn(c, regions[f].start, regions[f].end)) == hash(ShapeIn(c, regions[i].start, regions[i].end))
    && regions[f].end.rows - regions[f].start.rows == regions[i].end.rows - regions[i].start.rows
  }

  /** Region `i` is a call, exactly an instance of its template. */
  ghost predicate IsInstance(c: Flat, regions: seq<Region>, plan: Plan, i: nat, d: nat) {
    d < |plan.firsts| && Exact(c, regions, plan.firsts[d], i)
      && exists e :: e in plan.entries && e.region == i && e.def == d
  }

  /** Region `i` is part of the first region of a template like it. */
  ghost predicate IsOwnPart(c: Flat, regions: seq<Region>, hash: Shape -> Digest, plan: Plan, i: nat) {
    exists d :: 0 <= d < |plan.firsts| && Alike(c, regions, hash, plan.firsts[d], i)
                && Inside(regions[i], regions[plan.firsts[d]])
  }

  /** Some region like `i` has another form. */
  ghost predicate Differs(c: Flat, regions: seq<Region>, hash: Shape -> Digest, i: nat) {
    exists f :: 0 <= f < |regions| && Alike(c, regions, hash, f, i) && !Exact(c, regions, f, i)
  }

  /** A form that occurs twice is templated: each of its calls that the walk sees, unless it was marked, and then for a
      reason, or is part of its own template; and all of them by one template. */
  ghost predicate TwinsTemplated(c: Flat, regions: seq<Region>, hash: Shape -> Digest, maxRows: nat, bad: set<nat>,
                                 plan: Plan, inline: set<nat>) {
    forall i, j :: Twins(c, regions, maxRows, i, j) ==>
      && (Visible(regions, plan, inline, i) ==>
           || (exists d :: IsInstance(c, regions, plan, i, d))
           || IsOwnPart(c, regions, hash, plan, i) || (i in bad && Differs(c, regions, hash, i)))
      && forall d, d' :: IsInstance(c, regions, plan, i, d) && IsInstance(c, regions, plan, j, d') ==> d == d'
  }

  /** The keys of twins are there and the same. */
  lemma TwinsSigned(c: Flat, regions: seq<Region>, hash: Shape -> Digest, maxRows: nat, sig: seq<Option<Key>>, i: nat,
                    j: nat)
    requires Signed(c, regions, hash, maxRows, sig) && Twins(c, regions, maxRows, i, j)
    ensures sig[i].Some? && sig[i] == sig[j] && Repeats(sig, i)
  {
    hide ShapeIn, Nameable;
    assert Signs(c, regions, hash, maxRows, i, sig[i]) && Signs(c, regions, hash, maxRows, j, sig[j]);
    assert SizeRepeats(regions, maxRows, i) && SizeRepeats(regions, maxRows, j);
  }

  lemma SameKeyAlike(c: Flat, regions: seq<Region>, hash: Shape -> Digest, maxRows: nat, sig: seq<Option<Key>>, f: nat,
                     i: nat)
    requires Signed(c, regions, hash, maxRows, sig) && f < |regions| && i < |regions| && sig[i].Some?
      && sig[f] == sig[i]
    ensures Alike(c, regions, hash, f, i)
  {
    hide Signed, ShapeIn, Nameable;
    SignedNamed(c, regions, hash, maxRows, sig, f);
    SignedNamed(c, regions, hash, maxRows, sig, i);
  }

  lemma TwinFound(c: Flat, regions: seq<Region>, hash: Shape -> Digest, maxRows: nat, sig: seq<Option<Key>>,
                  bad: set<nat>, plan: Plan, inline: set<nat>, templates: seq<Template>, calls: seq<Call>, i: nat,
                  j: nat)
    requires Signed(c, regions, hash, maxRows, sig) && Found(c, regions, sig, bad, plan, templates, calls)
    requires Complete(regions, sig, bad, plan, inline) && Mismatched(c, regions, sig, bad)
    requires Twins(c, regions, maxRows, i, j) && Visible(regions, plan, inline, i)
    ensures (exists d :: IsInstance(c, regions, plan, i, d)) || IsOwnPart(c, regions, hash, plan, i)
            || (i in bad && Differs(c, regions, hash, i))
  {
    TwinsSigned(c, regions, hash, maxRows, sig, i, j);
    hide Signed, Twins, Exact, Alike, ShapeIn;
    if IsCall(plan, i) {
      var k :| 0 <= k < |plan.entries| && plan.entries[k].region == i;
      assert CallOf(c, regions, plan, plan.entries[k], calls[k]);
      assert IsInstance(c, regions, plan, i, plan.entries[k].def);
    } else if i in bad {
      var f :| 0 <= f < |regions| && sig[f] == sig[i] && !Exact(c, regions, f, i);
      SameKeyAlike(c, regions, hash, maxRows, sig, f, i);
    } else {
      assert i in inline && StaysInline(regions, sig, bad, plan, i);
      var d :| 0 <= d < |plan.firsts| && plan.firsts[d] < |regions| && sig[i] == sig[plan.firsts[d]]
               && Inside(regions[i], regions[plan.firsts[d]]);
      SameKeyAlike(c, regions, hash, maxRows, sig, plan.firsts[d], i);
    }
  }

  lemma TwinsShare(c: Flat, regions: seq<Region>, hash: Shape -> Digest, maxRows: nat, sig: seq<Option<Key>>,
                   bad: set<nat>, plan: Plan, i: nat, j: nat, d: nat, d': nat)
    requires Signed(c, regions, hash, maxRows, sig) && PlanOk(regions, sig, bad, plan)
      && Twins(c, regions, maxRows, i, j)
    requires IsInstance(c, regions, plan, i, d) && IsInstance(c, regions, plan, j, d')
    ensures d == d'
  {
    TwinsSigned(c, regions, hash, maxRows, sig, i, j);
    hide Signed, Twins, Exact, ShapeIn;
    var e :| e in plan.entries && e.region == i && e.def == d;
    var f :| f in plan.entries && f.region == j && f.def == d';
    assert EntryOk(regions, sig, bad, plan.firsts, e) && EntryOk(regions, sig, bad, plan.firsts, f);
  }

  lemma TwinsAreTemplated(c: Flat, regions: seq<Region>, hash: Shape -> Digest, maxRows: nat, sig: seq<Option<Key>>,
                          bad: set<nat>, plan: Plan, inline: set<nat>, templates: seq<Template>, calls: seq<Call>)
    requires Signed(c, regions, hash, maxRows, sig) && Found(c, regions, sig, bad, plan, templates, calls)
    requires Complete(regions, sig, bad, plan, inline) && Mismatched(c, regions, sig, bad)
    ensures TwinsTemplated(c, regions, hash, maxRows, bad, plan, inline)
  {
    hide Signed, Complete, Mismatched, IsInstance, IsOwnPart, Differs, Visible, PlanOk;
    forall i, j | Twins(c, regions, maxRows, i, j)
      ensures Visible(regions, plan, inline, i) ==>
           (exists d :: IsInstance(c, regions, plan, i, d)) || IsOwnPart(c, regions, hash, plan, i)
           || (i in bad && Differs(c, regions, hash, i))
      ensures forall d, d' :: IsInstance(c, regions, plan, i, d) && IsInstance(c, regions, plan, j, d') ==> d == d'
    {
      if Visible(regions, plan, inline, i) {
        TwinFound(c, regions, hash, maxRows, sig, bad, plan, inline, templates, calls, i, j);
      }
      forall d, d' | IsInstance(c, regions, plan, i, d) && IsInstance(c, regions, plan, j, d')
        ensures d == d'
      {
        TwinsShare(c, regions, hash, maxRows, sig, bad, plan, i, j, d, d');
      }
    }
  }

  method Detect(c: Flat, regions: seq<Region>, hash: Shape -> Digest, maxRows: nat)
    returns (templates: seq<Template>, calls: seq<Call>,
             ghost sig: seq<Option<Key>>, ghost bad: set<nat>, ghost plan: Plan, ghost inline: set<nat>)
    requires Fits(c, regions)
    ensures Signed(c, regions, hash, maxRows, sig)
    ensures Found(c, regions, sig, bad, plan, templates, calls)
    ensures Complete(regions, sig, bad, plan, inline) && Mismatched(c, regions, sig, bad)
    ensures TwinsTemplated(c, regions, hash, maxRows, bad, plan, inline)
  {
    hide TwinsTemplated, Nested, By, Exact, PlanOk, Complete, PlugsIn, ShapeIn, SameForm, Signs, Mismatched;
    var children, roots := Children(regions) by { assert Parented(regions) by { FitsNested(c, regions); } }
    var keys := Signatures(c, regions, hash, maxRows);
    sig, bad := keys, {};
    assert Mismatched(c, regions, sig, {}) by { NoneMismatched(c, regions, sig); }
    var marked: set<nat> := {};
    while true
      invariant marked == bad && Mismatched(c, regions, sig, bad)
      decreases |regions| - |marked| + 1
    {
      FitsNested(c, regions);
      var chosen;
      chosen, inline := Walk(regions, keys, children, roots, marked);
      plan := chosen;
      var forms := Forms(c, regions, hash, maxRows, keys, marked, chosen);
      var checked := Check(c, regions, hash, maxRows, keys, marked, chosen, forms);
      var before := |marked|;
      var more := marked + (set k | 0 <= k < |chosen.entries| && checked[k].None? :: chosen.entries[k].region);
      MarkMore(c, regions, sig, bad, plan, checked, more);
      if |more| == before {
        templates := seq(|chosen.firsts|, d requires 0 <= d < |chosen.firsts| =>
          Template(regions[chosen.firsts[d]].start, regions[chosen.firsts[d]].end, forms[d].1));
        calls := seq(|chosen.entries|, k requires 0 <= k < |chosen.entries| =>
          var (e, r) := (chosen.entries[k], regions[chosen.entries[k].region]);
          Call(e.def, e.parent, r.start, r.end, checked[k].value));
        TwinsAreTemplated(c, regions, hash, maxRows, sig, bad, plan, inline, templates, calls);
        return;
      }
      marked := more;
      bad := marked;
    }
  }

  lemma NoneMismatched(c: Flat, regions: seq<Region>, sig: seq<Option<Key>>)
    requires |sig| == |regions|
    ensures Mismatched(c, regions, sig, {})
  {
  }

  lemma FitsNested(c: Flat, regions: seq<Region>)
    requires Fits(c, regions)
    ensures Nested(regions) && Parented(regions)
  {
  }

  /** Marking the calls that are not exactly their template adds to the marked regions, unless all calls are. */
  lemma MarkMore(c: Flat, regions: seq<Region>, sig: seq<Option<Key>>, bad: set<nat>, plan: Plan,
                 checked: seq<Option<seq<nat>>>, more: set<nat>)
    requires |sig| == |regions| && PlanOk(regions, sig, bad, plan) && Mismatched(c, regions, sig, bad)
    requires |checked| == |plan.entries| && forall k :: 0 <= k < |checked| ==>
      Checks(c, regions, plan, plan.entries[k], checked[k])
    requires more == bad + (set k | 0 <= k < |plan.entries| && checked[k].None? :: plan.entries[k].region)
    ensures Mismatched(c, regions, sig, more) && |more| <= |regions| && |bad| <= |more|
    ensures |more| == |bad| ==> more == bad && forall k :: 0 <= k < |checked| ==> checked[k].Some?
    ensures forall d :: 0 <= d < |plan.firsts| ==> plan.firsts[d] < |regions|
    ensures forall k :: 0 <= k < |plan.entries| ==> plan.entries[k].region < |regions|
  {
    forall i | i in more
      ensures i < |regions| && exists f :: 0 <= f < |regions| && sig[f] == sig[i] && !Exact(c, regions, f, i)
    {
      if i !in bad {
        var k :| 0 <= k < |plan.entries| && checked[k].None? && plan.entries[k].region == i;
        assert EntryOk(regions, sig, bad, plan.firsts, plan.entries[k]);
        assert !Exact(c, regions, plan.firsts[plan.entries[k].def], i);
      }
    }
    SubsetSize(bad, more);
    SubsetSize(more, UpTo(|regions|));
    forall k | 0 <= k < |plan.entries|
      ensures plan.entries[k].region < |regions| && (|more| == |bad| ==> checked[k].Some?)
    {
      assert EntryOk(regions, sig, bad, plan.firsts, plan.entries[k]);
      assert checked[k].None? ==> plan.entries[k].region in more;
    }
  }
}
