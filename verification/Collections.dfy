/** Sorted lists of numbers, and finite sets of them. */
module Collections {

  /** `x` added to a sorted list without repeats. */
  function Insert(x: nat, xs: seq<nat>): (r: seq<nat>)
    ensures forall y: nat :: y in r <==> y == x || y in xs
    ensures |r| <= |xs| + 1
  {
    if xs == [] then [x]
    else if x < xs[0] then [x] + xs
    else if x == xs[0] then xs
    else [xs[0]] + Insert(x, xs[1..])
  }

  function Union(xs: seq<nat>, ys: seq<nat>): (r: seq<nat>)
    ensures forall y: nat :: y in r <==> y in xs || y in ys
  {
    if xs == [] then ys else Insert(xs[0], Union(xs[1..], ys))
  }

  ghost function UpTo(n: nat): (r: set<nat>)
    ensures |r| == n && forall i: nat :: i in r <==> i < n
  {
    if n == 0 then {} else UpTo(n - 1) + {n - 1}
  }

  /** A subset is no larger, and the whole set if it is as large. */
  lemma {:induction false} SubsetSize<T>(a: set<T>, b: set<T>)
    requires a <= b
    ensures |a| <= |b| && (|a| == |b| ==> a == b)
  {
    if a != {} {
      var x :| x in a;
      SubsetSize(a - {x}, b - {x});
    }
  }
}
