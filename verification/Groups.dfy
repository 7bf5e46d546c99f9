/** Commutative groups, written additively, and multiples of their elements. */
module Groups {

  datatype Group<!G(!new)> = Group(zero: G, add: (G, G) -> G, neg: G -> G)

  ghost predicate IsGroup<G(!new)>(g: Group<G>) {
    && (forall a, b :: g.add(a, b) == g.add(b, a))
    && (forall a, b, c :: g.add(g.add(a, b), c) == g.add(a, g.add(b, c)))
    && (forall a :: g.add(a, g.zero) == a)
    && (forall a :: g.add(a, g.neg(a)) == g.zero)
  }

  /** `k·x` */
  function Times<G(!new)>(g: Group<G>, k: nat, x: G): G {
    if k == 0 then g.zero else g.add(x, Times(g, k - 1, x))
  }

  /** `n` times any element is zero. */
  ghost predicate HasOrder<G(!new)>(g: Group<G>, n: nat) {
    n > 0 && forall x :: Times(g, n, x) == g.zero
  }

  lemma Comm<G(!new)>(g: Group<G>, a: G, b: G)
    requires IsGroup(g)
    ensures g.add(a, b) == g.add(b, a)
  {
  }

  lemma Assoc<G(!new)>(g: Group<G>, a: G, b: G, c: G)
    requires IsGroup(g)
    ensures g.add(g.add(a, b), c) == g.add(a, g.add(b, c))
  {
  }

  lemma Unit<G(!new)>(g: Group<G>, a: G)
    requires IsGroup(g)
    ensures g.add(a, g.zero) == a && g.add(g.zero, a) == a
  {
    Comm(g, a, g.zero);
  }

  lemma Inverse<G(!new)>(g: Group<G>, a: G)
    requires IsGroup(g)
    ensures g.add(a, g.neg(a)) == g.zero && g.add(g.neg(a), a) == g.zero
  {
    Comm(g, a, g.neg(a));
  }

  lemma Swap<G(!new)>(g: Group<G>, a: G, b: G, c: G, d: G)
    requires IsGroup(g)
    ensures g.add(g.add(a, b), g.add(c, d)) == g.add(g.add(a, c), g.add(b, d))
  {
    hide IsGroup;
    Assoc(g, a, b, g.add(c, d));
    Assoc(g, b, c, d);
    Comm(g, b, c);
    Assoc(g, c, b, d);
    Assoc(g, a, c, g.add(b, d));
  }

  lemma {:induction false} TimesAdd<G(!new)>(g: Group<G>, j: nat, k: nat, x: G)
    requires IsGroup(g)
    ensures Times(g, j + k, x) == g.add(Times(g, j, x), Times(g, k, x))
  {
    hide IsGroup;
    if j == 0 {
      Unit(g, Times(g, k, x));
    } else {
      TimesAdd(g, j - 1, k, x);
      Assoc(g, x, Times(g, j - 1, x), Times(g, k, x));
    }
  }

  lemma TimesOne<G(!new)>(g: Group<G>, x: G)
    requires IsGroup(g)
    ensures Times(g, 1, x) == x
  {
    Unit(g, x);
    assert Times(g, 1, x) == g.add(x, Times(g, 0, x));
  }

  lemma {:induction false} TimesTimes<G(!new)>(g: Group<G>, j: nat, k: nat, x: G)
    requires IsGroup(g)
    ensures Times(g, j * k, x) == Times(g, j, Times(g, k, x))
  {
    hide IsGroup;
    if j > 0 {
      TimesTimes(g, j - 1, k, x);
      assert j * k == k + (j - 1) * k;
      TimesAdd(g, k, (j - 1) * k, x);
    } else {
      assert j * k == 0;
    }
  }

  lemma {:induction false} TimesZero<G(!new)>(g: Group<G>, k: nat)
    requires IsGroup(g)
    ensures Times(g, k, g.zero) == g.zero
  {
    hide IsGroup;
    if k > 0 {
      TimesZero(g, k - 1);
      Unit(g, g.zero);
    }
  }

  lemma {:induction false} TimesSum<G(!new)>(g: Group<G>, k: nat, x: G, y: G)
    requires IsGroup(g)
    ensures Times(g, k, g.add(x, y)) == g.add(Times(g, k, x), Times(g, k, y))
  {
    hide IsGroup;
    if k > 0 {
      TimesSum(g, k - 1, x, y);
      Swap(g, x, y, Times(g, k - 1, x), Times(g, k - 1, y));
    } else {
      Unit(g, g.zero);
    }
  }

  /** Scalars may be reduced modulo the order. */
  lemma TimesMod<G(!new)>(g: Group<G>, n: nat, k: nat, x: G)
    requires IsGroup(g) && HasOrder(g, n)
    ensures Times(g, k % n, x) == Times(g, k, x)
  {
    hide IsGroup;
    var (q, r) := (k / n, k % n);
    TimesAdd(g, q * n, r, x);
    TimesTimes(g, q, n, x);
    TimesZero(g, q);
    Unit(g, Times(g, r, x));
  }

  /** The sum of a sequence. */
  function Sum<G(!new)>(g: Group<G>, xs: seq<G>): G {
    if xs == [] then g.zero else g.add(Sum(g, xs[..|xs| - 1]), xs[|xs| - 1])
  }
}
