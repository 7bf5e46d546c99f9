/**
 * A phase-2 ceremony: contributions that rescale the keys, and the three checks of the shipped result.
 * Points are discrete logarithms modulo the group order; the pairing multiplies them.
 */
module Ceremony {
  import opened Fields

  /** The part of the keys no contribution touches: α, β, γ, the public-input points, the A and B queries. */
  datatype Fixed = Fixed(alpha_g1: nat, beta_g2: nat, beta_g1: nat, gamma_g2: nat, gamma_abc_g1: seq<nat>,
                         a_query: seq<nat>, b_g1_query: seq<nat>, b_g2_query: seq<nat>)

  /** A verifying key, as far as contributions and checks look at it. */
  datatype Shipped = Shipped(fixed: Fixed, pk_fixed: Fixed, delta_g1: nat, pk_delta_g2: nat, vk_delta_g2: nat,
                             h_query: seq<nat>, l_query: seq<nat>)

  datatype Contribution = Contribution(delta_g2: nat, commitment: nat, response: nat, prev_delta_g1: nat,
    new_delta_g1: nat)

  /** The Schnorr challenge: some hash of the two deltas, the committed factor and the commitment. */
  type Challenge = (nat, nat, nat, nat) -> nat

  datatype Outcome =
    | Accepted
    | ChainBreak(index: nat)
    | Degenerate(index: nat)
    | SchnorrInvalid(index: nat)
    | DeltaInconsistent(index: nat)
    | DegenerateFinal

  ghost predicate Residues(p: Prime, xs: seq<nat>) {
    forall i :: 0 <= i < |xs| ==> xs[i] < p
  }

  /** The proving and verifying keys, updated in place. */
  class Keys {
    const p: Prime
    const fixed: Fixed
    var delta_g1: nat
    var pk_delta_g2: nat
    var vk_delta_g2: nat
    const h_query: array<nat>
    const l_query: array<nat>

    constructor (p: Prime, fixed: Fixed, delta: nat, h: seq<nat>, l: seq<nat>)
      requires 0 < delta < p && Residues(p, h) && Residues(p, l)
      ensures Valid() && fresh(this) && fresh(h_query) && fresh(l_query)
      ensures this.p == p && Ship() == Shipped(fixed, fixed, delta, delta, delta, h, l)
    {
      this.p, this.fixed := p, fixed;
      delta_g1, pk_delta_g2, vk_delta_g2 := delta, delta, delta;
      h_query := new nat[|h|](i requires 0 <= i < |h| => h[i]);
      l_query := new nat[|l|](i requires 0 <= i < |l| => l[i]);
      new;
      assert h_query[..] == h && l_query[..] == l;
    }

    ghost predicate Valid()
      reads this, h_query, l_query
    {
      && h_query != l_query && Residues(p, h_query[..]) && Residues(p, l_query[..])
      && delta_g1 < p && pk_delta_g2 == vk_delta_g2 == delta_g1 && delta_g1 != 0
    }

    /** The keys as they are shipped. */
    function Ship(): Shipped
      reads this, h_query, l_query
    {
      Shipped(fixed, fixed, delta_g1, pk_delta_g2, vk_delta_g2, h_query[..], l_query[..])
    }

    /** Multiply every point of a query by `k`, in place. */
    method Rescale(q: array<nat>, k: nat)
      requires k < p
      modifies q
      ensures q[..] == Scaled(p, old(q[..]), k)
    {
      var i := 0;
      while i < q.Length
        invariant 0 <= i <= q.Length
        invariant forall j :: 0 <= j < i ==> q[j] == old(q[j]) * k % p
        invariant forall j :: i <= j < q.Length ==> q[j] == old(q[j])
      {
        q[i] := q[i] * k % p;
        i := i + 1;
      }
      assert q[..] == Scaled(p, old(q[..]), k);
    }

    /** Apply the secret `d`, with Schnorr nonce `r`. */
    method Contribute(hash: Challenge, d: nat, dInv: nat, r: nat) returns (c: Contribution)
      requires Valid() && 0 < d < p && 0 < r < p && dInv < p && Cong(p, d * dInv, 1)
      modifies this`delta_g1, this`pk_delta_g2, this`vk_delta_g2, h_query, l_query
      ensures Valid() && c == Attest(p, hash, old(delta_g1), d, r) && Ship() == Contributed(p, old(Ship()), d, dInv)
    {
      var prev := delta_g1;
      Nonzero(p, prev, d);
      delta_g1 := prev * d % p;
      pk_delta_g2 := vk_delta_g2 * d % p;
      vk_delta_g2 := pk_delta_g2;
      Rescale(h_query, dInv);
      Rescale(l_query, dInv);
      var e := hash(prev, delta_g1, d, r);
      c := Contribution(d, r, (r + e * d) % p, prev, delta_g1);
    }
  }

  function Scaled(p: Prime, xs: seq<nat>, k: nat): (r: seq<nat>)
    ensures |r| == |xs| && Residues(p, r)
  {
    seq(|xs|, i requires 0 <= i < |xs| => xs[i] * k % p)
  }

  /** What a contribution of `d` publishes. */
  function Attest(p: Prime, hash: Challenge, prev: nat, d: nat, r: nat): Contribution {
    var next := prev * d % p;
    Contribution(d, r, (r + hash(prev, next, d, r) * d) % p, prev, next)
  }

  function Contributed(p: Prime, k: Shipped, d: nat, dInv: nat): Shipped {
    k.(delta_g1 := k.delta_g1 * d % p, pk_delta_g2 := k.vk_delta_g2 * d % p, vk_delta_g2 := k.vk_delta_g2 * d % p,
       h_query := Scaled(p, k.h_query, dInv), l_query := Scaled(p, k.l_query, dInv))
  }

  lemma Nonzero(p: Prime, a: nat, b: nat)
    requires 0 < a < p && 0 < b < p
    ensures a * b % p != 0
  {
    ModSmall(a, p);
    ModSmall(b, p);
    ZeroProduct(p, a, b);
  }

  // ----- the checks -----

  /** Walk the chain from `initial`. */
  method VerifyChain(p: Prime, hash: Challenge, initial: nat, cs: seq<Contribution>) returns (r: Outcome)
    ensures r.Accepted? <==> GoodChain(p, hash, initial, cs)
    ensures Ends(p, hash, initial, cs, r)
  {
    hide IsPrime, GoodLinks;
    var running := initial;
    var i := 0;
    assert GoodLinks(p, hash, initial, cs[..0]) by { NoLinks(p, hash, initial); }
    while i < |cs|
      invariant 0 <= i <= |cs| && running == Final(initial, cs[..i])
      invariant GoodLinks(p, hash, initial, cs[..i])
    {
      var c := cs[i];
      LinksSnoc(p, hash, initial, cs[..i], c);
      assert cs[..i + 1] == cs[..i] + [c];
      var e := hash(c.prev_delta_g1, c.new_delta_g1, c.delta_g2, c.commitment);
      var good := c.prev_delta_g1 == running && c.delta_g2 % p != 0 && c.new_delta_g1 % p != 0;
      if !good || c.response % p != (c.commitment + c.delta_g2 * e) % p
         || c.new_delta_g1 % p != c.prev_delta_g1 * c.delta_g2 % p {
        FirstBad(p, hash, initial, cs, i);
        return if c.prev_delta_g1 != running then ChainBreak(i) else if !good then Degenerate(i)
               else if c.response % p != (c.commitment + c.delta_g2 * e) % p then SchnorrInvalid(i)
                 else DeltaInconsistent(i);
      }
      running := c.new_delta_g1;
      i := i + 1;
    }
    assert cs[..|cs|] == cs;
    if running % p == 0 {
      return DegenerateFinal;
    }
    return Accepted;
  }

  lemma NoLinks(p: Prime, hash: Challenge, initial: nat)
    ensures GoodLinks(p, hash, initial, [])
  {
  }

  lemma FirstBad(p: Prime, hash: Challenge, initial: nat, cs: seq<Contribution>, i: nat)
    requires i < |cs| && !GoodLink(p, hash, Final(initial, cs[..i]), cs[i])
    ensures !GoodLinks(p, hash, initial, cs)
  {
  }

  /** The last delta of a chain. */
  function Final(initial: nat, cs: seq<Contribution>): nat {
    if cs == [] then initial else cs[|cs| - 1].new_delta_g1
  }

  /** Neither the committed factor nor the new delta is zero in the field. */
  ghost predicate Usable(p: Prime, c: Contribution) {
    !Divides(p, c.delta_g2) && !Divides(p, c.new_delta_g1)
  }

  /** The Schnorr proof of the committed factor. */
  ghost predicate Proved(p: Prime, hash: Challenge, c: Contribution) {
    Cong(p, c.response, c.commitment + c.delta_g2 * hash(c.prev_delta_g1, c.new_delta_g1, c.delta_g2, c.commitment))
  }

  /** The factor is what the delta was multiplied by. */
  ghost predicate Consistent(p: Prime, c: Contribution) {
    Cong(p, c.new_delta_g1, c.prev_delta_g1 * c.delta_g2)
  }

  ghost predicate GoodLink(p: Prime, hash: Challenge, prev: nat, c: Contribution) {
    c.prev_delta_g1 == prev && Usable(p, c) && Proved(p, hash, c) && Consistent(p, c)
  }

  /** The index is that of the first bad contribution, and the answer the first thing wrong with it. */
  ghost predicate Ends(p: Prime, hash: Challenge, initial: nat, cs: seq<Contribution>, r: Outcome) {
    if r.Accepted? then GoodChain(p, hash, initial, cs)
    else if r.DegenerateFinal? then GoodLinks(p, hash, initial, cs) && Divides(p, Final(initial, cs))
    else
      && r.index < |cs| && GoodLinks(p, hash, initial, cs[..r.index])
      && var (prev, c) := (Final(initial, cs[..r.index]), cs[r.index]);
         match r
         case ChainBreak(_) => c.prev_delta_g1 != prev
         case Degenerate(_) => c.prev_delta_g1 == prev && !Usable(p, c)
         case SchnorrInvalid(_) => c.prev_delta_g1 == prev && Usable(p, c) && !Proved(p, hash, c)
         case _ => c.prev_delta_g1 == prev && Usable(p, c) && Proved(p, hash, c) && !Consistent(p, c)
  }

  /** There is one answer. */
  lemma EndsOnce(p: Prime, hash: Challenge, initial: nat, cs: seq<Contribution>, r: Outcome, other: Outcome)
    requires Ends(p, hash, initial, cs, r) && Ends(p, hash, initial, cs, other)
    ensures other == r
  {
    hide Usable, Proved, Consistent, Divides, IsPrime;
    if r.Accepted? || r.DegenerateFinal? {
      if !other.Accepted? && !other.DegenerateFinal? {
        FirstBad(p, hash, initial, cs, other.index);
      }
    } else {
      FirstBad(p, hash, initial, cs, r.index);
      if !other.Accepted? && !other.DegenerateFinal? {
        NotBefore(p, hash, initial, cs, r.index, other.index);
        NotBefore(p, hash, initial, cs, other.index, r.index);
      }
    }
  }

  lemma NotBefore(p: Prime, hash: Challenge, initial: nat, cs: seq<Contribution>, i: nat, j: nat)
    requires i < |cs| && j <= |cs| && !GoodLink(p, hash, Final(initial, cs[..i]), cs[i])
    requires GoodLinks(p, hash, initial, cs[..j])
    ensures j <= i
  {
    hide GoodLink, GoodLinks;
    if i < j {
      GoodAt(p, hash, initial, cs, i, j);
    }
  }

  lemma GoodAt(p: Prime, hash: Challenge, initial: nat, cs: seq<Contribution>, i: nat, j: nat)
    requires i < j <= |cs| && GoodLinks(p, hash, initial, cs[..j])
    ensures GoodLink(p, hash, Final(initial, cs[..i]), cs[i])
  {
    hide GoodLink;
    assert cs[..j][..i] == cs[..i] && cs[..j][i] == cs[i];
  }

  ghost predicate GoodChain(p: Prime, hash: Challenge, initial: nat, cs: seq<Contribution>) {
    GoodLinks(p, hash, initial, cs) && !Divides(p, Final(initial, cs))
  }

  /** Whether the shipped delta is the chain's, in both groups. */
  predicate KeysConsistentWithChain(p: Prime, k: Shipped, initial: nat, cs: seq<Contribution>) {
    k.delta_g1 == Final(initial, cs) && k.delta_g1 % p == k.vk_delta_g2 % p
  }

  /** Whether only delta changed, and the H and L queries by its inverse, at the random coefficients `rs`. */
  predicate KeysMatchInitial(p: Prime, k: Shipped, k0: Shipped, rs: seq<nat>)
    requires |rs| == |k.h_query| + |k.l_query|
  {
    && k.pk_fixed == k.fixed && k.pk_delta_g2 == k.vk_delta_g2
    && k.fixed == k0.fixed
    && |k.h_query| == |k0.h_query| && |k.l_query| == |k0.l_query|
    && Dot(k.h_query + k.l_query, rs) * k.vk_delta_g2 % p == Dot(k0.h_query + k0.l_query, rs) * k0.vk_delta_g2 % p
  }

  function Dot(xs: seq<nat>, rs: seq<nat>): nat
    requires |xs| == |rs|
  {
    if xs == [] then 0 else rs[0] * xs[0] + Dot(xs[1..], rs[1..])
  }

  // ----- what an accepted chain proves -----

  function Product(cs: seq<Contribution>): nat {
    if cs == [] then 1 else Product(cs[..|cs| - 1]) * cs[|cs| - 1].delta_g2
  }

  ghost predicate GoodLinks(p: Prime, hash: Challenge, initial: nat, cs: seq<Contribution>) {
    forall j :: 0 <= j < |cs| ==> GoodLink(p, hash, Final(initial, cs[..j]), cs[j])
  }

  lemma LinksSnoc(p: Prime, hash: Challenge, initial: nat, cs: seq<Contribution>, c: Contribution)
    ensures GoodLinks(p, hash, initial, cs + [c])
       <==> GoodLinks(p, hash, initial, cs) && GoodLink(p, hash, Final(initial, cs), c)
  {
    var all := cs + [c];
    assert all[..|cs|] == cs && all[|cs|] == c;
    forall j | 0 <= j < |cs|
      ensures all[..j] == cs[..j] && all[j] == cs[j]
    {
    }
    if GoodLinks(p, hash, initial, all) {
      forall j | 0 <= j < |cs|
        ensures GoodLink(p, hash, Final(initial, cs[..j]), cs[j])
      {
        assert GoodLink(p, hash, Final(initial, all[..j]), all[j]);
      }
      assert GoodLink(p, hash, Final(initial, all[..|cs|]), all[|cs|]);
    }
  }

  /** A chain's final delta is the initial one times the committed factors, none of which is zero in the field. */
  lemma {:induction false} ChainMultiplies(p: Prime, hash: Challenge, initial: nat, cs: seq<Contribution>)
    requires GoodLinks(p, hash, initial, cs)
    ensures Cong(p, Final(initial, cs), initial * Product(cs))
    ensures forall j :: 0 <= j < |cs| ==> !Divides(p, cs[j].delta_g2) && !Divides(p, cs[j].new_delta_g1)
  {
    forall j | 0 <= j < |cs|
      ensures !Divides(p, cs[j].delta_g2) && !Divides(p, cs[j].new_delta_g1)
    {
      assert GoodLink(p, hash, Final(initial, cs[..j]), cs[j]);
    }
    if cs != [] {
      var (most, c) := (cs[..|cs| - 1], cs[|cs| - 1]);
      assert cs == most + [c];
      LinksSnoc(p, hash, initial, most, c);
      ChainMultiplies(p, hash, initial, most);
      LinkMultiplies(p, hash, Final(initial, most), initial, Product(most), c);
    }
  }

  lemma LinkMultiplies(p: Prime, hash: Challenge, prev: nat, initial: nat, product: nat, c: Contribution)
    requires GoodLink(p, hash, prev, c) && Cong(p, prev, initial * product)
    ensures Cong(p, c.new_delta_g1, initial * (product * c.delta_g2))
  {
    CongMul(p, prev, initial * product, c.delta_g2, c.delta_g2);
    assert initial * product * c.delta_g2 == initial * (product * c.delta_g2);
  }

  // ----- what each answer is for -----

  /** A good chain up to `j`, with another contribution there. */
  lemma ChangedLink(p: Prime, hash: Challenge, initial: nat, cs: seq<Contribution>, j: nat, c: Contribution)
    requires GoodLinks(p, hash, initial, cs) && j < |cs|
    ensures var forged := cs[j := c];
      && GoodLinks(p, hash, initial, forged[..j]) && forged[j] == c
      && Final(initial, forged[..j]) == cs[j].prev_delta_g1
      && GoodLink(p, hash, cs[j].prev_delta_g1, cs[j])
  {
    hide Usable, Proved, Consistent;
    var forged := cs[j := c];
    assert forged[..j] == cs[..j];
    forall i | 0 <= i < j
      ensures cs[..j][..i] == cs[..i]
    {
    }
    assert GoodLink(p, hash, Final(initial, cs[..j]), cs[j]);
  }

  /** A contribution that does not follow the one before it. */
  lemma BrokenChain(p: Prime, hash: Challenge, initial: nat, cs: seq<Contribution>, j: nat, x: nat, r: Outcome)
    requires GoodLinks(p, hash, initial, cs) && j < |cs| && x != cs[j].prev_delta_g1
    requires Ends(p, hash, initial, cs[j := cs[j].(prev_delta_g1 := x)], r)
    ensures r == ChainBreak(j)
  {
    hide IsPrime, GoodLinks, GoodLink;
    ChangedLink(p, hash, initial, cs, j, cs[j].(prev_delta_g1 := x));
    Answered(p, hash, initial, cs[j := cs[j].(prev_delta_g1 := x)], ChainBreak(j), r);
  }

  /** A factor or a delta that is zero in the field. */
  lemma ZeroRefused(p: Prime, hash: Challenge, initial: nat, cs: seq<Contribution>, j: nat, c: Contribution, r: Outcome)
    requires GoodLinks(p, hash, initial, cs) && j < |cs| && c.prev_delta_g1 == cs[j].prev_delta_g1
    requires (c.delta_g2 % p == 0 || c.new_delta_g1 % p == 0) && Ends(p, hash, initial, cs[j := c], r)
    ensures r == Degenerate(j)
  {
    hide IsPrime, GoodLinks, GoodLink;
    ChangedLink(p, hash, initial, cs, j, c);
    Answered(p, hash, initial, cs[j := c], Degenerate(j), r);
  }

  /** A response other than the one the challenge asks for. */
  lemma ForgedResponse(p: Prime, hash: Challenge, initial: nat, cs: seq<Contribution>, j: nat, z: nat, r: Outcome)
    requires GoodLinks(p, hash, initial, cs) && j < |cs| && !Cong(p, z, cs[j].response)
    requires Ends(p, hash, initial, cs[j := cs[j].(response := z)], r)
    ensures r == SchnorrInvalid(j)
  {
    hide IsPrime, GoodLinks;
    ChangedLink(p, hash, initial, cs, j, cs[j].(response := z));
    Answered(p, hash, initial, cs[j := cs[j].(response := z)], SchnorrInvalid(j), r);
  }

  /** A new delta other than the old one times the factor, though the factor is proved for it. */
  lemma ForgedDelta(p: Prime, hash: Challenge, initial: nat, cs: seq<Contribution>, j: nat, x: nat, r: Outcome)
    requires GoodLinks(p, hash, initial, cs) && j < |cs| && x % p != 0 && !Cong(p, x, cs[j].new_delta_g1)
    requires var c := cs[j];
      var z := c.commitment + c.delta_g2 * hash(c.prev_delta_g1, x, c.delta_g2, c.commitment);
      Ends(p, hash, initial, cs[j := c.(new_delta_g1 := x, response := z)], r)
    ensures r == DeltaInconsistent(j)
  {
    hide IsPrime, GoodLinks;
    var c := cs[j];
    var z := c.commitment + c.delta_g2 * hash(c.prev_delta_g1, x, c.delta_g2, c.commitment);
    ChangedLink(p, hash, initial, cs, j, c.(new_delta_g1 := x, response := z));
    Answered(p, hash, initial, cs[j := c.(new_delta_g1 := x, response := z)], DeltaInconsistent(j), r);
  }

  /** An honest run with one response shifted is refused for it. */
  lemma ShiftedRunRefused(p: Prime, hash: Challenge, k: Shipped, xs: seq<Secret>, j: nat, shift: nat, r: Outcome)
    requires OkKeys(p, k) && OkSecrets(p, xs) && j < |xs| && shift % p != 0
    requires var cs := Attestations(p, hash, k, xs);
      Ends(p, hash, k.delta_g1, cs[j := cs[j].(response := cs[j].response + shift)], r)
    ensures r == SchnorrInvalid(j)
  {
    hide IsPrime, GoodLinks, Ends, KeysAfter, Cong, Attestations;
    var cs := Attestations(p, hash, k, xs);
    RunLinks(p, hash, k, xs);
    NotShifted(p, cs[j].response, shift);
    ForgedResponse(p, hash, k.delta_g1, cs, j, cs[j].response + shift, r);
  }

  lemma NotShifted(p: Prime, z: nat, shift: nat)
    requires shift % p != 0
    ensures !Cong(p, z + shift, z)
  {
    CongIff(p, z + shift, z);
  }

  lemma Answered(p: Prime, hash: Challenge, initial: nat, cs: seq<Contribution>, answer: Outcome, r: Outcome)
    requires Ends(p, hash, initial, cs, answer)
    ensures Ends(p, hash, initial, cs, r) ==> r == answer
  {
    hide Ends;
    if Ends(p, hash, initial, cs, r) {
      EndsOnce(p, hash, initial, cs, answer, r);
    }
  }

  /** The response is what the contribution's other parts and the challenge make it, in the field. */
  lemma ResponseForced(p: Prime, hash: Challenge, initial: nat, cs: seq<Contribution>, j: nat, z: nat)
    requires GoodChain(p, hash, initial, cs) && j < |cs|
    ensures GoodChain(p, hash, initial, cs[j := cs[j].(response := z)]) <==> Cong(p, z, cs[j].response)
  {
    hide IsPrime, GoodLinks;
    var forged := cs[j := cs[j].(response := z)];
    ChangedLink(p, hash, initial, cs, j, forged[j]);
    if Cong(p, z, cs[j].response) {
      SameLinks(p, hash, initial, cs, j, forged);
    } else {
      Answered(p, hash, initial, forged, SchnorrInvalid(j), Accepted);
    }
  }

  lemma SameLinks(p: Prime, hash: Challenge, initial: nat, cs: seq<Contribution>, j: nat, forged: seq<Contribution>)
    requires GoodLinks(p, hash, initial, cs) && j < |cs| && |forged| == |cs|
    requires forged == cs[j := cs[j].(response := forged[j].response)] && Cong(p, forged[j].response, cs[j].response)
    ensures GoodLinks(p, hash, initial, forged) && Final(initial, forged) == Final(initial, cs)
  {
    hide IsPrime, Divides, Usable, Consistent, GoodLink;
    forall i | 0 <= i < |forged|
      ensures GoodLink(p, hash, Final(initial, forged[..i]), forged[i])
    {
      assert GoodLink(p, hash, Final(initial, cs[..i]), cs[i]);
      SameLink(p, hash, Final(initial, cs[..i]), cs[i], forged[i]);
    }
  }

  lemma SameLink(p: Prime, hash: Challenge, prev: nat, c: Contribution, d: Contribution)
    requires GoodLink(p, hash, prev, c) && d == c.(response := d.response) && Cong(p, d.response, c.response)
    ensures GoodLink(p, hash, prev, d)
  {
    hide IsPrime;
  }

  /** Special soundness: two accepted answers to one commitment, under challenges that differ, give the factor away. */
  lemma FactorExtracted(p: Prime, hash: Challenge, other: Challenge, prev: nat, c: Contribution, z: nat, d: nat)
    requires GoodLink(p, hash, prev, c) && GoodLink(p, other, prev, c.(response := z))
    ensures var (e, f) := (hash(prev, c.new_delta_g1, c.delta_g2, c.commitment),
                           other(prev, c.new_delta_g1, c.delta_g2, c.commitment));
      && Cong(p, c.response - z, (e - f) * c.delta_g2)
      && (!Cong(p, e, f) && Cong(p, c.response - z, (e - f) * d) ==> Cong(p, d, c.delta_g2))
  {
    hide IsPrime;
    var (e, f) := (hash(prev, c.new_delta_g1, c.delta_g2, c.commitment),
                   other(prev, c.new_delta_g1, c.delta_g2, c.commitment));
    CongAdd(p, c.response, c.commitment + c.delta_g2 * e, z, c.commitment + c.delta_g2 * f);
    assert c.commitment + c.delta_g2 * e - (c.commitment + c.delta_g2 * f) == (e - f) * c.delta_g2;
    CongIff(p, e, f);
    if !Cong(p, e, f) && Cong(p, c.response - z, (e - f) * d) {
      CancelFactor(p, e - f, d, c.delta_g2);
    }
  }

  // ----- honest runs -----

  datatype Secret = Secret(d: nat, dInv: nat, r: nat)

  ghost predicate OkSecret(p: Prime, x: Secret) {
    0 < x.d < p && 0 < x.r < p && x.dInv < p && Cong(p, x.d * x.dInv, 1)
  }

  ghost predicate OkSecrets(p: Prime, xs: seq<Secret>) {
    forall i :: 0 <= i < |xs| ==> OkSecret(p, xs[i])
  }

  /** The keys after every contributor's turn. */
  function KeysAfter(p: Prime, k: Shipped, xs: seq<Secret>): Shipped {
    if xs == [] then k
    else var x := xs[|xs| - 1]; Contributed(p, KeysAfter(p, k, xs[..|xs| - 1]), x.d, x.dInv)
  }

  function Attestations(p: Prime, hash: Challenge, k: Shipped, xs: seq<Secret>): (cs: seq<Contribution>)
    ensures |cs| == |xs|
  {
    if xs == [] then []
    else
      var x := xs[|xs| - 1];
      Attestations(p, hash, k, xs[..|xs| - 1]) + [Attest(p, hash, KeysAfter(p, k, xs[..|xs| - 1]).delta_g1, x.d, x.r)]
  }

  ghost predicate OkKeys(p: Prime, k: Shipped) {
    && 0 < k.delta_g1 < p && k.pk_delta_g2 == k.delta_g1 && k.vk_delta_g2 == k.delta_g1 && k.pk_fixed == k.fixed
    && Residues(p, k.h_query) && Residues(p, k.l_query)
  }

  /** The same query up to the change of delta. */
  ghost predicate Conserved(p: Prime, xs: seq<nat>, delta: nat, xs0: seq<nat>, delta0: nat) {
    |xs| == |xs0| && forall i :: 0 <= i < |xs| ==> Cong(p, xs[i] * delta, xs0[i] * delta0)
  }

  lemma RescaledConserves(p: Prime, xs: seq<nat>, delta: nat, d: nat, dInv: nat, xs0: seq<nat>, delta0: nat)
    requires Conserved(p, xs, delta, xs0, delta0) && Cong(p, d * dInv, 1)
    ensures Conserved(p, Scaled(p, xs, dInv), delta * d % p, xs0, delta0)
  {
    var ys := Scaled(p, xs, dInv);
    forall i | 0 <= i < |ys|
      ensures Cong(p, ys[i] * (delta * d % p), xs0[i] * delta0)
    {
      var x := xs[i];
      CongMod(p, x * dInv);
      CongMod(p, delta * d);
      CongMul(p, ys[i], x * dInv, delta * d % p, delta * d);
      assert (x * dInv) * (delta * d) == (x * delta) * (d * dInv);
      CongMul(p, x * delta, xs0[i] * delta0, d * dInv, 1);
    }
  }

  /** Whatever the number of contributions, delta times each H and L point stays what it was. */
  lemma {:induction false} RunConserves(p: Prime, k: Shipped, xs: seq<Secret>)
    requires OkKeys(p, k) && OkSecrets(p, xs)
    ensures var k1 := KeysAfter(p, k, xs);
      && OkKeys(p, k1) && k1.fixed == k.fixed
      && Conserved(p, k1.h_query, k1.delta_g1, k.h_query, k.delta_g1)
      && Conserved(p, k1.l_query, k1.delta_g1, k.l_query, k.delta_g1)
  {
    if xs != [] {
      var (most, x) := (xs[..|xs| - 1], xs[|xs| - 1]);
      RunConserves(p, k, most);
      var k1 := KeysAfter(p, k, most);
      assert OkSecret(p, x);
      Nonzero(p, k1.delta_g1, x.d);
      RescaledConserves(p, k1.h_query, k1.delta_g1, x.d, x.dInv, k.h_query, k.delta_g1);
      RescaledConserves(p, k1.l_query, k1.delta_g1, x.d, x.dInv, k.l_query, k.delta_g1);
    }
  }

  lemma {:induction false} RunLinks(p: Prime, hash: Challenge, k: Shipped, xs: seq<Secret>)
    requires OkKeys(p, k) && OkSecrets(p, xs)
    ensures var cs := Attestations(p, hash, k, xs);
      GoodLinks(p, hash, k.delta_g1, cs) && Final(k.delta_g1, cs) == KeysAfter(p, k, xs).delta_g1
  {
    if xs != [] {
      var (most, x) := (xs[..|xs| - 1], xs[|xs| - 1]);
      RunLinks(p, hash, k, most);
      RunConserves(p, k, most);
      RunConserves(p, k, xs);
      var prev := KeysAfter(p, k, most).delta_g1;
      hide IsPrime, GoodLinks, Conserved, OkSecrets, GoodLink;
      assert OkSecret(p, x);
      AttestLinks(p, hash, prev, x);
      LinksSnoc(p, hash, k.delta_g1, Attestations(p, hash, k, most), Attest(p, hash, prev, x.d, x.r));
    }
  }

  /** An honest attestation is a good link. */
  lemma AttestLinks(p: Prime, hash: Challenge, prev: nat, x: Secret)
    requires 0 < prev < p && OkSecret(p, x)
    ensures GoodLink(p, hash, prev, Attest(p, hash, prev, x.d, x.r))
  {
    hide IsPrime;
    var c := Attest(p, hash, prev, x.d, x.r);
    Nonzero(p, prev, x.d);
    ModSmall(x.d, p);
    ModSmall(c.new_delta_g1, p);
    CongMod(p, prev * x.d);
    CongMod(p, x.r + hash(prev, c.new_delta_g1, x.d, x.r) * x.d);
    assert hash(prev, c.new_delta_g1, x.d, x.r) * x.d == x.d * hash(prev, c.new_delta_g1, x.d, x.r);
  }

  lemma {:induction false} DotConserved(p: Prime, xs: seq<nat>, delta: nat, xs0: seq<nat>, delta0: nat, rs: seq<nat>)
    requires Conserved(p, xs, delta, xs0, delta0) && |rs| == |xs|
    ensures Cong(p, Dot(xs, rs) * delta, Dot(xs0, rs) * delta0)
  {
    if xs != [] {
      var (a, a0, r) := (Dot(xs[1..], rs[1..]), Dot(xs0[1..], rs[1..]), rs[0]);
      DotConserved(p, xs[1..], delta, xs0[1..], delta0, rs[1..]);
      CongMul(p, r, r, xs[0] * delta, xs0[0] * delta0);
      CongAdd(p, r * (xs[0] * delta), r * (xs0[0] * delta0), a * delta, a0 * delta0);
      assert (r * xs[0] + a) * delta == r * (xs[0] * delta) + a * delta;
      assert (r * xs0[0] + a0) * delta0 == r * (xs0[0] * delta0) + a0 * delta0;
    }
  }

  /** An honest run passes all three checks, for every choice of random coefficients. */
  lemma HonestRunPasses(p: Prime, hash: Challenge, k: Shipped, xs: seq<Secret>, rs: seq<nat>)
    requires OkKeys(p, k) && OkSecrets(p, xs) && |rs| == |k.h_query| + |k.l_query|
    ensures var (k1, cs) := (KeysAfter(p, k, xs), Attestations(p, hash, k, xs));
      && GoodChain(p, hash, k.delta_g1, cs) && KeysConsistentWithChain(p, k1, k.delta_g1, cs)
      && |k1.h_query| == |k.h_query| && |k1.l_query| == |k.l_query| && KeysMatchInitial(p, k1, k, rs)
  {
    hide IsPrime, GoodLinks, Dot;
    var (k1, cs) := (KeysAfter(p, k, xs), Attestations(p, hash, k, xs));
    RunConserves(p, k, xs);
    RunLinks(p, hash, k, xs);
    ModSmall(k1.delta_g1, p);
    var (q, q0) := (k1.h_query + k1.l_query, k.h_query + k.l_query);
    assert Conserved(p, q, k1.delta_g1, q0, k.delta_g1);
    DotConserved(p, q, k1.delta_g1, q0, k.delta_g1, rs);
  }

  // ----- wrong points -----

  lemma {:induction false} DotUpdate(xs: seq<nat>, rs: seq<nat>, j: nat, r: nat)
    requires |xs| == |rs| && j < |xs|
    ensures Dot(xs, rs[j := r]) == Dot(xs, rs) + (r - rs[j]) * xs[j]
  {
    var rs' := rs[j := r];
    if j == 0 {
      assert rs'[1..] == rs[1..];
      assert r * xs[0] == rs[0] * xs[0] + (r - rs[0]) * xs[0];
    } else {
      DotUpdate(xs[1..], rs[1..], j - 1, r);
      assert rs'[1..] == rs[1..][j - 1 := r];
    }
  }

  lemma UpdateDifference(p: Prime, a: int, e: int, x: int, d: int, a0: int, x0: int, d0: int)
    requires Cong(p, a * d, a0 * d0) && Cong(p, (a + e * x) * d, (a0 + e * x0) * d0)
    ensures Cong(p, e * (x * d), e * (x0 * d0))
  {
    CongAdd(p, (a + e * x) * d, (a0 + e * x0) * d0, a * d, a0 * d0);
    assert (a + e * x) * d - a * d == e * (x * d);
    assert (a0 + e * x0) * d0 - a0 * d0 == e * (x0 * d0);
  }

  /** An H or L point that is not the initial one rescaled passes for at most one value of its own random
      coefficient, whatever the others are. */
  lemma WrongPointCaught(p: Prime, k: Shipped, k0: Shipped, rs: seq<nat>, j: nat, r: nat)
    requires |rs| == |k.h_query| + |k.l_query| && j < |rs| && !Cong(p, r, rs[j])
    requires KeysMatchInitial(p, k, k0, rs) && KeysMatchInitial(p, k, k0, rs[j := r])
    ensures Cong(p, (k.h_query + k.l_query)[j] * k.vk_delta_g2, (k0.h_query + k0.l_query)[j] * k0.vk_delta_g2)
  {
    hide Dot, IsPrime;
    var (q, q0, d, d0) := (k.h_query + k.l_query, k0.h_query + k0.l_query, k.vk_delta_g2, k0.vk_delta_g2);
    DotUpdate(q, rs, j, r);
    DotUpdate(q0, rs, j, r);
    var (a, a0, e) := (Dot(q, rs), Dot(q0, rs), r - rs[j]);
    UpdateDifference(p, a, e, q[j], d, a0, q0[j], d0);
    CongIff(p, r, rs[j]);
    CancelFactor(p, e, q[j] * d, q0[j] * d0);
  }

  /** The shipped keys are the initial ones rescaled: nothing else changed, and delta times each point is conserved. */
  ghost predicate OnlyRescaled(p: Prime, k: Shipped, k0: Shipped) {
    && k.pk_fixed == k.fixed && k.fixed == k0.fixed && k.pk_delta_g2 == k.vk_delta_g2
    && Conserved(p, k.h_query, k.vk_delta_g2, k0.h_query, k0.vk_delta_g2)
    && Conserved(p, k.l_query, k.vk_delta_g2, k0.l_query, k0.vk_delta_g2)
  }

  lemma ConservedBoth(p: Prime, k: Shipped, k0: Shipped)
    requires |k.h_query| == |k0.h_query| && |k.l_query| == |k0.l_query|
    ensures Conserved(p, k.h_query + k.l_query, k.vk_delta_g2, k0.h_query + k0.l_query, k0.vk_delta_g2)
       <==> Conserved(p, k.h_query, k.vk_delta_g2, k0.h_query, k0.vk_delta_g2)
            && Conserved(p, k.l_query, k.vk_delta_g2, k0.l_query, k0.vk_delta_g2)
  {
    ConservedConcat(p, k.h_query, k.l_query, k.vk_delta_g2, k0.h_query, k0.l_query, k0.vk_delta_g2);
  }

  lemma ConservedConcat(p: Prime, h: seq<nat>, l: seq<nat>, delta: nat, h0: seq<nat>, l0: seq<nat>, delta0: nat)
    requires |h| == |h0| && |l| == |l0|
    ensures Conserved(p, h + l, delta, h0 + l0, delta0)
       <==> Conserved(p, h, delta, h0, delta0) && Conserved(p, l, delta, l0, delta0)
  {
    hide Cong, IsPrime;
    var (q, q0, n) := (h + l, h0 + l0, |h|);
    forall i | 0 <= i < n
      ensures q[i] == h[i] && q0[i] == h0[i]
    {
    }
    if Conserved(p, q, delta, q0, delta0) {
      forall i | 0 <= i < |l|
        ensures Cong(p, l[i] * delta, l0[i] * delta0)
      {
        assert Cong(p, q[n + i] * delta, q0[n + i] * delta0);
      }
    }
  }

  /** Keys that were only rescaled pass at every random vector. */
  lemma RescaledPasses(p: Prime, k: Shipped, k0: Shipped, rs: seq<nat>)
    requires OnlyRescaled(p, k, k0) && |rs| == |k.h_query| + |k.l_query|
    ensures KeysMatchInitial(p, k, k0, rs)
  {
    hide Dot, Conserved;
    ConservedLengths(p, k, k0);
    ConservedBoth(p, k, k0);
    DotConserved(p, k.h_query + k.l_query, k.vk_delta_g2, k0.h_query + k0.l_query, k0.vk_delta_g2, rs);
  }

  lemma ConservedLengths(p: Prime, k: Shipped, k0: Shipped)
    requires OnlyRescaled(p, k, k0)
    ensures |k.h_query| == |k0.h_query| && |k.l_query| == |k0.l_query|
  {
  }

  /** Passing at one random vector, and at one other value of each coefficient, is exactly having only been rescaled. */
  lemma MatchingDecides(p: Prime, k: Shipped, k0: Shipped, rs: seq<nat>, others: seq<nat>)
    requires |rs| == |others| == |k.h_query| + |k.l_query|
    requires forall j :: 0 <= j < |rs| ==> !Cong(p, others[j], rs[j])
    ensures KeysMatchInitial(p, k, k0, rs) && (forall j :: 0 <= j < |rs| ==>
      KeysMatchInitial(p, k, k0, rs[j := others[j]]))
       <==> OnlyRescaled(p, k, k0)
  {
    hide Dot;
    if KeysMatchInitial(p, k, k0, rs) && forall j :: 0 <= j < |rs| ==> KeysMatchInitial(p, k, k0, rs[j := others[j]]) {
      forall j | 0 <= j < |rs|
        ensures Cong(p, (k.h_query + k.l_query)[j] * k.vk_delta_g2, (k0.h_query + k0.l_query)[j] * k0.vk_delta_g2)
      {
        WrongPointCaught(p, k, k0, rs, j, others[j]);
      }
      ConservedBoth(p, k, k0);
    }
    if OnlyRescaled(p, k, k0) {
      RescaledPasses(p, k, k0, rs);
      forall j | 0 <= j < |rs|
        ensures KeysMatchInitial(p, k, k0, rs[j := others[j]])
      {
        RescaledPasses(p, k, k0, rs[j := others[j]]);
      }
    }
  }

  /** All three checks together: the shipped delta is the initial one times the committed factors, none of them zero in
      the field, and all else is the initial keys rescaled to it. */
  lemma ChecksProveRescaling(p: Prime, hash: Challenge, k: Shipped, k0: Shipped, cs: seq<Contribution>, rs: seq<nat>,
                             others: seq<nat>)
    requires GoodChain(p, hash, k0.delta_g1, cs) && KeysConsistentWithChain(p, k, k0.delta_g1, cs)
    requires |rs| == |others| == |k.h_query| + |k.l_query|
    requires forall j :: 0 <= j < |rs| ==> !Cong(p, others[j], rs[j])
    requires KeysMatchInitial(p, k, k0, rs) && forall j :: 0 <= j < |rs| ==>
      KeysMatchInitial(p, k, k0, rs[j := others[j]])
    ensures Cong(p, k.delta_g1, k0.delta_g1 * Product(cs)) && Cong(p, k.vk_delta_g2, k0.delta_g1 * Product(cs))
    ensures !Divides(p, k.delta_g1) && !Divides(p, k.vk_delta_g2) && OnlyRescaled(p, k, k0)
    ensures forall j :: 0 <= j < |cs| ==> !Divides(p, cs[j].delta_g2)
  {
    hide KeysMatchInitial, OnlyRescaled;
    ChainMultiplies(p, hash, k0.delta_g1, cs);
    MatchingDecides(p, k, k0, rs, others);
  }
}
