/**
 * The consistency check of a powers-of-tau transcript, with points as their discrete logarithms modulo the
 * group order and the pairing as multiplication.
 */
module Ptau {
  import opened Fields
  import opened Polynomials

  datatype PtauFile = PtauFile(tau_g1: seq<nat>, tau_g2: seq<nat>, alpha_tau_g1: seq<nat>, beta_tau_g1: seq<nat>,
    beta_g2: nat)

  ghost predicate Points(p: Prime, xs: seq<nat>) {
    forall i :: 0 <= i < |xs| ==> xs[i] < p
  }

  ghost predicate OkFile(p: Prime, f: PtauFile) {
    Points(p, f.tau_g1) && Points(p, f.tau_g2) && Points(p, f.alpha_tau_g1) && Points(p, f.beta_tau_g1) && f.beta_g2 < p
  }

  datatype Verdict = Consistent | Inconsistent(stage: string)

  function Pairing(p: Prime, a: nat, b: nat): nat {
    (a * b) % p
  }

  lemma PairingUnit(p: Prime, x: nat)
    requires x < p
    ensures Pairing(p, x, 1) == x && Pairing(p, 1, x) == x
  {
    ModSmall(x, p);
  }

  // ----- ladders -----

  /** `xs` is `a, a·t, a·t², …` */
  ghost predicate Ladder(p: Prime, xs: seq<nat>, t: nat) {
    forall i :: 0 <= i < |xs| ==> Cong(p, xs[i], xs[0] * Power(t, i))
  }

  /** Consecutive differences from a ladder with ratio `t`. */
  function Gaps(xs: seq<nat>, t: nat): (d: seq<int>)
    ensures |d| == if |xs| < 2 then 0 else |xs| - 1
  {
    if |xs| < 2 then [] else seq(|xs| - 1, i requires 0 <= i < |xs| - 1 => xs[i + 1] - t * xs[i])
  }

  /** The batched equation of a ladder at challenge `rho`. */
  ghost predicate Batched(p: Prime, xs: seq<nat>, t: nat, rho: int) {
    Divides(p, Poly(Gaps(xs, t), rho))
  }

  lemma {:induction false} LadderStep(p: Prime, xs: seq<nat>, t: nat, i: nat)
    requires Vanishes(p, Gaps(xs, t)) && i < |xs|
    ensures Cong(p, xs[i], xs[0] * Power(t, i))
    decreases i
  {
    if i > 0 {
      LadderStep(p, xs, t, i - 1);
      var d := Gaps(xs, t);
      assert Divides(p, d[i - 1]) && d[i - 1] == xs[i] - t * xs[i - 1];
      CongIff(p, xs[i], t * xs[i - 1]);
      CongMul(p, t, t, xs[i - 1], xs[0] * Power(t, i - 1));
      assert t * (xs[0] * Power(t, i - 1)) == xs[0] * Power(t, i);
    }
  }

  /** A ladder is exactly a sequence without gaps. */
  lemma LadderGaps(p: Prime, xs: seq<nat>, t: nat)
    ensures Ladder(p, xs, t) <==> Vanishes(p, Gaps(xs, t))
  {
    var d := Gaps(xs, t);
    if Ladder(p, xs, t) {
      forall i | 0 <= i < |d|
        ensures Divides(p, d[i])
      {
        var (a, b) := (xs[0] * Power(t, i), xs[0] * Power(t, i + 1));
        assert Cong(p, xs[i], a) && Cong(p, xs[i + 1], b);
        assert b == t * a;
        CongMul(p, t, t, xs[i], a);
        CongIff(p, xs[i + 1], t * xs[i]);
      }
    }
    if Vanishes(p, d) {
      forall i | 0 <= i < |xs|
        ensures Cong(p, xs[i], xs[0] * Power(t, i))
      {
        LadderStep(p, xs, t, i);
      }
    }
  }

  /** More challenges than a ladder has steps decide whether it is one. */
  lemma BatchingIsSound(p: Prime, xs: seq<nat>, t: nat, rhos: seq<int>)
    requires Distinct(p, rhos) && |rhos| + 1 >= |xs|
    ensures Ladder(p, xs, t) <==> forall i :: 0 <= i < |rhos| ==> Batched(p, xs, t, rhos[i])
  {
    LadderGaps(p, xs, t);
    var d := Gaps(xs, t);
    if Ladder(p, xs, t) {
      forall i | 0 <= i < |rhos|
        ensures Batched(p, xs, t, rhos[i])
      {
        ZeroPoly(p, d, rhos[i]);
      }
    }
    if forall i :: 0 <= i < |rhos| ==> Batched(p, xs, t, rhos[i]) {
      assert forall i :: 0 <= i < |rhos| ==> Divides(p, Poly(d, rhos[i])) by {
        assert forall i :: 0 <= i < |rhos| ==> Batched(p, xs, t, rhos[i]);
      }
      TooManyRoots(p, d, rhos);
    }
  }

  // ----- the check -----

  lemma PowerNext(p: Prime, rho: nat, i: nat, cur: nat)
    requires cur == Power(rho, i) % p
    ensures cur * rho % p == Power(rho, i + 1) % p
  {
    CongMod(p, Power(rho, i));
    CongMul(p, cur, Power(rho, i), rho, rho);
    assert Power(rho, i) * rho == Power(rho, i + 1);
  }

  lemma DotNext(p: Prime, k: nat, x: nat, r: nat, d: int)
    requires Cong(p, r, d)
    ensures (k * x + r) % p < p && Cong(p, (k * x + r) % p, k * x + d)
  {
    CongAdd(p, k * x, k * x, r, d);
    CongMod(p, k * x + r);
  }

  /** `[rho⁰, …, rho^(n−1)]` */
  method PowersOf(p: Prime, rho: nat, n: nat) returns (r: seq<nat>)
    requires rho < p
    ensures |r| == n && forall i :: 0 <= i < n ==> r[i] == Power(rho, i) % p
  {
    r := [];
    var cur: nat := 1;
    ModSmall(1, p);
    while |r| < n
      invariant |r| <= n && cur == Power(rho, |r|) % p
      invariant forall i :: 0 <= i < |r| ==> r[i] == Power(rho, i) % p
    {
      PowerNext(p, rho, |r|, cur);
      r := r + [cur];
      cur := cur * rho % p;
    }
  }

  /** The sum of `ks[i]·xs[i]` in the group. */
  method Msm(p: Prime, xs: seq<nat>, ks: seq<nat>) returns (r: nat)
    requires |xs| == |ks|
    ensures r < p && Cong(p, r, Dot(xs, ks))
  {
    hide Cong, IsPrime;
    r := 0;
    var i := |xs|;
    CongSelf(p, 0);
    assert xs[i..] == [] && ks[i..] == [];
    while i > 0
      invariant 0 <= i <= |xs| && r < p && Cong(p, r, Dot(xs[i..], ks[i..]))
    {
      i := i - 1;
      assert xs[i..][1..] == xs[i + 1..] && ks[i..][1..] == ks[i + 1..];
      DotNext(p, ks[i], xs[i], r, Dot(xs[i + 1..], ks[i + 1..]));
      r := (ks[i] * xs[i] + r) % p;
    }
    assert xs[0..] == xs && ks[0..] == ks;
  }

  function Dot(xs: seq<nat>, ks: seq<nat>): int
    requires |xs| == |ks|
  {
    if xs == [] then 0 else ks[0] * xs[0] + Dot(xs[1..], ks[1..])
  }

  ghost predicate PowersFrom(p: Prime, ks: seq<nat>, rho: nat, from: nat) {
    forall i :: 0 <= i < |ks| ==> Cong(p, ks[i], Power(rho, from + i))
  }

  /** Shifted by one and rescaled, two sums over the same powers differ by the batched gaps. */
  lemma {:induction false} DotGaps(p: Prime, xs: seq<nat>, ks: seq<nat>, t: nat, rho: nat, from: nat)
    requires |xs| == |ks| + 1 && PowersFrom(p, ks, rho, from)
    ensures Cong(p, Dot(xs[1..], ks) - t * Dot(xs[..|ks|], ks), Power(rho, from) * Poly(Gaps(xs, t), rho))
  {
    var (b, a, d) := (xs[1..], xs[..|ks|], Gaps(xs, t));
    if ks == [] {
      assert d == [];
      assert Power(rho, from) * Poly(d, rho) == 0;
    } else {
      var (xs', ks') := (xs[1..], ks[1..]);
      assert PowersFrom(p, ks', rho, from + 1) by {
        forall i | 0 <= i < |ks'|
          ensures Cong(p, ks'[i], Power(rho, from + 1 + i))
        {
          assert Cong(p, ks[i + 1], Power(rho, from + (i + 1)));
        }
      }
      DotGaps(p, xs', ks', t, rho, from + 1);
      assert b[1..] == xs'[1..] && a[1..] == xs'[..|ks'|] && d[1..] == Gaps(xs', t);
      DotGap(p, ks[0], xs[0], xs[1], t, rho, from, Dot(b[1..], ks'), Dot(a[1..], ks'), Poly(d[1..], rho));
    }
  }

  lemma DotGap(p: Prime, k: nat, x: nat, x': nat, t: nat, rho: nat, from: nat, b: int, a: int, d: int)
    requires Cong(p, k, Power(rho, from)) && Cong(p, b - t * a, Power(rho, from + 1) * d)
    ensures Cong(p, (k * x' + b) - t * (k * x + a), Power(rho, from) * ((x' - t * x) + rho * d))
  {
    var w := Power(rho, from);
    CongMul(p, k, w, x' - t * x, x' - t * x);
    CongAdd(p, k * (x' - t * x), w * (x' - t * x), b - t * a, (rho * w) * d);
    assert (k * x' + b) - t * (k * x + a) == k * (x' - t * x) + (b - t * a);
    assert w * ((x' - t * x) + rho * d) == w * (x' - t * x) + (rho * w) * d;
  }

  /** One ladder against `tau_g2[0]` and `tau_g2[1]`, by two sums and two pairings. */
  method LadderOk(p: Prime, xs: seq<nat>, scalars: seq<nat>, lo: nat, hi: nat, ghost rho: nat) returns (ok: bool)
    requires |scalars| + 1 >= |xs| && PowersFrom(p, scalars, rho, 0) && lo == 1
    ensures ok <==> Batched(p, xs, hi, rho)
  {
    var m := |xs|;
    if m < 2 {
      assert Poly(Gaps(xs, hi), rho) == 0;
      return true;
    }
    var ks := scalars[..m - 1];
    var a := Msm(p, xs[..m - 1], ks);
    var b := Msm(p, xs[1..], ks);
    ok := Pairing(p, b, lo) == Pairing(p, a, hi);
    LadderOkIff(p, xs, ks, a, b, hi, rho);
  }

  lemma LadderOkIff(p: Prime, xs: seq<nat>, ks: seq<nat>, a: nat, b: nat, t: nat, rho: nat)
    requires |xs| == |ks| + 1 && PowersFrom(p, ks, rho, 0)
    requires Cong(p, a, Dot(xs[..|ks|], ks)) && Cong(p, b, Dot(xs[1..], ks))
    ensures Cong(p, b, a * t) <==> Batched(p, xs, t, rho)
  {
    var (x, y, d) := (Dot(xs[..|ks|], ks), Dot(xs[1..], ks), Poly(Gaps(xs, t), rho));
    DotGaps(p, xs, ks, t, rho, 0);
    assert Power(rho, 0) * d == d;
    CongMul(p, t, t, a, x);
    CongAdd(p, b, y, t * a, t * x);
    CongIff(p, b, t * a);
    assert t * a == a * t;
  }

  /** What the check accepts at challenge `rho`. */
  ghost predicate Accepts(p: Prime, f: PtauFile, rho: nat) {
    && |f.tau_g1| >= 2 && |f.tau_g2| >= 2 && f.alpha_tau_g1 != [] && f.beta_tau_g1 != []
    && f.tau_g1[0] == 1 && f.tau_g2[0] == 1
    && f.tau_g1[1] > 1 && f.alpha_tau_g1[0] != 0 && f.beta_tau_g1[0] != 0 && f.beta_g2 != 0
    && f.tau_g2[1] == f.tau_g1[1] && f.beta_g2 == f.beta_tau_g1[0]
    && Batched(p, f.tau_g1, f.tau_g1[1], rho) && Batched(p, f.alpha_tau_g1, f.tau_g1[1], rho)
    && Batched(p, f.beta_tau_g1, f.tau_g1[1], rho) && Batched(p, f.tau_g2, f.tau_g1[1], rho)
  }

  function Longest(f: PtauFile): nat {
    var (a, b) := (if |f.tau_g1| >= |f.alpha_tau_g1| then |f.tau_g1| else |f.alpha_tau_g1|,
                   if |f.beta_tau_g1| >= |f.tau_g2| then |f.beta_tau_g1| else |f.tau_g2|);
    if a >= b then a else b
  }

  /** The check, at the challenge `rho` its hash gives. */
  method VerifyPowersConsistency(p: Prime, f: PtauFile, rho: nat) returns (r: Verdict)
    requires OkFile(p, f) && rho < p
    ensures r.Consistent? <==> Accepts(p, f, rho)
  {
    hide Cong, IsPrime, Batched, PowersFrom, Power, Pairing;
    // Normalization: both ladders start at the generators.
    if |f.tau_g1| < 2 || |f.tau_g2| < 2 {
      return Inconsistent("too-short");
    }
    if f.tau_g1[0] != 1 || f.tau_g2[0] != 1 {
      return Inconsistent("generators");
    }
    if f.alpha_tau_g1 == [] || f.beta_tau_g1 == [] {
      return Inconsistent("missing-alpha-beta");
    }
    if f.tau_g1[1] == 0 || f.tau_g1[1] == 1 {
      return Inconsistent("degenerate-tau");
    }
    if f.alpha_tau_g1[0] == 0 {
      return Inconsistent("degenerate-alpha");
    }
    if f.beta_tau_g1[0] == 0 || f.beta_g2 == 0 {
      return Inconsistent("degenerate-beta");
    }
    PairingUnit(p, f.tau_g1[1]);
    PairingUnit(p, f.tau_g2[1]);
    if Pairing(p, f.tau_g1[1], 1) != Pairing(p, 1, f.tau_g2[1]) {
      return Inconsistent("tau-link");
    }
    var scalars := PowersOf(p, rho, Longest(f) - 1);
    PowersCong(p, scalars, rho);
    var (lo, hi) := (f.tau_g2[0], f.tau_g2[1]);
    var ok := LadderOk(p, f.tau_g1, scalars, lo, hi, rho);
    if !ok {
      return Inconsistent("tau-g1-ladder");
    }
    ok := LadderOk(p, f.alpha_tau_g1, scalars, lo, hi, rho);
    if !ok {
      return Inconsistent("alpha-ladder");
    }
    ok := LadderOk(p, f.beta_tau_g1, scalars, lo, hi, rho);
    if !ok {
      return Inconsistent("beta-ladder");
    }
    // The G2 ladder, with the sides of the pairing exchanged.
    ok := LadderOk(p, f.tau_g2, scalars, f.tau_g1[0], f.tau_g1[1], rho);
    if !ok {
      return Inconsistent("tau-g2-ladder");
    }
    PairingUnit(p, f.beta_tau_g1[0]);
    PairingUnit(p, f.beta_g2);
    if Pairing(p, f.beta_tau_g1[0], 1) != Pairing(p, 1, f.beta_g2) {
      return Inconsistent("beta-link");
    }
    r := Consistent;
  }

  lemma PowersCong(p: Prime, ks: seq<nat>, rho: nat)
    requires forall i :: 0 <= i < |ks| ==> ks[i] == Power(rho, i) % p
    ensures PowersFrom(p, ks, rho, 0)
  {
    forall i | 0 <= i < |ks|
      ensures Cong(p, ks[i], Power(rho, 0 + i))
    {
      CongMod(p, Power(rho, i));
    }
  }

  /** The transcript of some `tau` outside `{0, 1}` and nonzero `alpha` and `beta`. */
  ghost predicate Honest(p: Prime, f: PtauFile) {
    && |f.tau_g1| >= 2 && |f.tau_g2| >= 2 && f.alpha_tau_g1 != [] && f.beta_tau_g1 != []
    && exists tau: nat, alpha: nat, beta: nat :: 1 < tau < p && 0 < alpha < p && 0 < beta < p && f.beta_g2 == beta
         && IsLadder(p, f.tau_g1, 1, tau) && IsLadder(p, f.tau_g2, 1, tau)
         && IsLadder(p, f.alpha_tau_g1, alpha, tau) && IsLadder(p, f.beta_tau_g1, beta, tau)
  }

  ghost predicate IsLadder(p: Prime, xs: seq<nat>, a: nat, t: nat) {
    forall i :: 0 <= i < |xs| ==> xs[i] == (a * Power(t, i)) % p
  }

  lemma LadderOf(p: Prime, xs: seq<nat>, a: nat, t: nat)
    requires Points(p, xs) && xs != [] && a < p
    ensures IsLadder(p, xs, a, t) <==> xs[0] == a && Ladder(p, xs, t)
  {
    assert a * Power(t, 0) == a && xs[0] * Power(t, 0) == xs[0];
    ModSmall(a, p);
    if IsLadder(p, xs, a, t) {
      assert xs[0] == (a * Power(t, 0)) % p;
      forall i | 0 <= i < |xs|
        ensures Cong(p, xs[i], xs[0] * Power(t, i))
      {
        CongMod(p, a * Power(t, i));
      }
    }
    if xs[0] == a && Ladder(p, xs, t) {
      forall i | 0 <= i < |xs|
        ensures xs[i] == (a * Power(t, i)) % p
      {
        assert Cong(p, xs[i], xs[0] * Power(t, i));
        ModSmall(xs[i], p);
      }
    }
  }

  /** With more distinct challenges than the longest ladder has gaps, passing at all of them is exactly
      being honest; and an honest transcript passes at every challenge. */
  lemma ChecksDecideHonesty(p: Prime, f: PtauFile, rhos: seq<nat>)
    requires OkFile(p, f) && Distinct(p, rhos) && |rhos| + 1 >= Longest(f) && rhos != []
    ensures (forall i :: 0 <= i < |rhos| ==> Accepts(p, f, rhos[i])) <==> Honest(p, f)
  {
    if forall i :: 0 <= i < |rhos| ==> Accepts(p, f, rhos[i]) {
      assert Accepts(p, f, rhos[0]);
      var (tau, alpha, beta) := (f.tau_g1[1], f.alpha_tau_g1[0], f.beta_tau_g1[0]);
      forall i | 0 <= i < |rhos|
        ensures Batched(p, f.tau_g1, tau, rhos[i]) && Batched(p, f.alpha_tau_g1, tau, rhos[i])
        ensures Batched(p, f.beta_tau_g1, tau, rhos[i]) && Batched(p, f.tau_g2, tau, rhos[i])
      {
        assert Accepts(p, f, rhos[i]);
      }
      BatchingIsSound(p, f.tau_g1, tau, rhos);
      BatchingIsSound(p, f.tau_g2, tau, rhos);
      BatchingIsSound(p, f.alpha_tau_g1, tau, rhos);
      BatchingIsSound(p, f.beta_tau_g1, tau, rhos);
      LadderOf(p, f.tau_g1, 1, tau);
      LadderOf(p, f.tau_g2, 1, tau);
      LadderOf(p, f.alpha_tau_g1, alpha, tau);
      LadderOf(p, f.beta_tau_g1, beta, tau);
    }
    if Honest(p, f) {
      forall i | 0 <= i < |rhos|
        ensures Accepts(p, f, rhos[i])
      {
        HonestPasses(p, f, rhos[i]);
      }
    }
  }

  lemma HonestPasses(p: Prime, f: PtauFile, rho: nat)
    requires OkFile(p, f) && Honest(p, f)
    ensures Accepts(p, f, rho)
  {
    var tau: nat, alpha: nat, beta: nat :| 1 < tau < p && 0 < alpha < p && 0 < beta < p && f.beta_g2 == beta
      && IsLadder(p, f.tau_g1, 1, tau) && IsLadder(p, f.tau_g2, 1, tau)
      && IsLadder(p, f.alpha_tau_g1, alpha, tau) && IsLadder(p, f.beta_tau_g1, beta, tau);
    LadderOf(p, f.tau_g1, 1, tau);
    LadderOf(p, f.tau_g2, 1, tau);
    LadderOf(p, f.alpha_tau_g1, alpha, tau);
    LadderOf(p, f.beta_tau_g1, beta, tau);
    assert 1 * Power(tau, 1) == tau by { assert Power(tau, 1) == tau * Power(tau, 0); }
    ModSmall(tau, p);
    assert f.tau_g1[1] == tau && f.tau_g2[1] == tau;
    forall xs | xs in [f.tau_g1, f.tau_g2, f.alpha_tau_g1, f.beta_tau_g1]
      ensures Batched(p, xs, tau, rho)
    {
      LadderGaps(p, xs, tau);
      ZeroPoly(p, Gaps(xs, tau), rho);
    }
    assert f.tau_g1 in [f.tau_g1, f.tau_g2, f.alpha_tau_g1, f.beta_tau_g1];
  }
}
