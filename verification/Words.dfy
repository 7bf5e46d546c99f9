/** Little-endian machine words: bytes, and the bit and byte sizes a wire or a memory access has. */
module Words {

  datatype Option<+T> = None | Some(value: T)

  type Byte = x: nat | x < 256

  function Pow2(n: nat): (p: nat)
    ensures p >= 1
  {
    if n == 0 then 1 else 2 * Pow2(n - 1)
  }

  /** `k` if `m` is `2^k`. */
  function LogOf(m: nat): (k: Option<nat>)
    ensures k.Some? ==> m == Pow2(k.value)
  {
    if m == 0 then None
    else if m == 1 then Some(0)
    else if m % 2 == 1 then None
    else match LogOf(m / 2) case None => None case Some(j) => Some(j + 1)
  }

  function Pow256(n: nat): (p: nat)
    ensures p >= 1
  {
    if n == 0 then 1 else 256 * Pow256(n - 1)
  }

  /** Byte `k` of `x`, as `(x >> 8k) as u8`. */
  function ByteAt(x: nat, k: nat): Byte {
    if k == 0 then x % 256 else ByteAt(x / 256, k - 1)
  }

  /** `u64::from_le_bytes`, for any number of bytes. */
  function FromBytes(bs: seq<Byte>): nat {
    if bs == [] then 0 else bs[0] + 256 * FromBytes(bs[1..])
  }

  /** The low `n` bytes of `x`, little-endian. */
  function ToBytes(x: nat, n: nat): (bs: seq<Byte>)
    ensures |bs| == n
    ensures forall k :: 0 <= k < n ==> bs[k] == ByteAt(x, k)
  {
    if n == 0 then [] else [x % 256] + ToBytes(x / 256, n - 1)
  }

  lemma {:induction false} Pow2Add(m: nat, n: nat)
    ensures Pow2(m + n) == Pow2(m) * Pow2(n)
  {
    if m > 0 {
      Pow2Add(m - 1, n);
      assert Pow2(m + n) == 2 * (Pow2(m - 1) * Pow2(n)) == (2 * Pow2(m - 1)) * Pow2(n);
    }
  }

  lemma {:induction false} Pow2Mono(m: nat, n: nat)
    requires m <= n
    ensures Pow2(m) <= Pow2(n)
    decreases n
  {
    if m < n {
      Pow2Mono(m, n - 1);
    }
  }

  lemma {:induction false} Pow256IsPow2(n: nat)
    ensures Pow256(n) == Pow2(8 * n)
  {
    if n > 0 {
      Pow256IsPow2(n - 1);
      Pow2Add(8, 8 * (n - 1));
      assert 8 + 8 * (n - 1) == 8 * n;
      assert Pow2(8) == 256;
    }
  }

  lemma {:induction false} Pow256Mono(m: nat, n: nat)
    requires m <= n
    ensures Pow256(m) <= Pow256(n)
    decreases n
  {
    if m < n {
      Pow256Mono(m, n - 1);
    }
  }

  lemma {:induction false} FromBytesBound(bs: seq<Byte>)
    ensures FromBytes(bs) < Pow256(|bs|)
  {
    if bs != [] {
      FromBytesBound(bs[1..]);
    }
  }

  /** The bytes of an assembled word are the bytes it was assembled from. */
  lemma {:induction false} ByteAtFromBytes(bs: seq<Byte>, k: nat)
    ensures ByteAt(FromBytes(bs), k) == if k < |bs| then bs[k] else 0
    decreases k
  {
    if bs == [] {
      ByteAtZero(k);
    } else {
      assert FromBytes(bs) / 256 == FromBytes(bs[1..]);
      if k > 0 {
        ByteAtFromBytes(bs[1..], k - 1);
      }
    }
  }

  lemma {:induction false} ByteAtZero(k: nat)
    ensures ByteAt(0, k) == 0
  {
    if k > 0 {
      ByteAtZero(k - 1);
    }
  }

  lemma {:induction false} ByteAtHigh(x: nat, n: nat, k: nat)
    requires x < Pow256(n) && n <= k
    ensures ByteAt(x, k) == 0
    decreases k
  {
    if n == 0 {
      ByteAtZero(k);
    } else {
      ByteAtHigh(x / 256, n - 1, k - 1);
    }
  }

  /** A word is determined by its bytes. */
  lemma {:induction false} SameBytesSameWord(x: nat, y: nat, n: nat)
    requires x < Pow256(n) && y < Pow256(n)
    requires forall k :: 0 <= k < n ==> ByteAt(x, k) == ByteAt(y, k)
    ensures x == y
  {
    if n > 0 {
      assert ByteAt(x, 0) == ByteAt(y, 0);
      forall k | 0 <= k < n - 1
        ensures ByteAt(x / 256, k) == ByteAt(y / 256, k)
      {
        assert ByteAt(x, k + 1) == ByteAt(y, k + 1);
      }
      SameBytesSameWord(x / 256, y / 256, n - 1);
    }
  }

  /** `bs` assembles to `x` as soon as its bytes are those of `x`. */
  lemma FromBytesIs(bs: seq<Byte>, x: nat)
    requires x < Pow256(|bs|)
    requires forall k :: 0 <= k < |bs| ==> bs[k] == ByteAt(x, k)
    ensures FromBytes(bs) == x
  {
    FromBytesBound(bs);
    forall k | 0 <= k < |bs|
      ensures ByteAt(FromBytes(bs), k) == ByteAt(x, k)
    {
      ByteAtFromBytes(bs, k);
    }
    SameBytesSameWord(FromBytes(bs), x, |bs|);
  }

  lemma {:induction false} FromBytesSnoc(c: seq<Byte>, x: Byte)
    ensures FromBytes(c + [x]) == FromBytes(c) + x * Pow2(8 * |c|)
  {
    if c == [] {
      assert [x][1..] == [];
    } else {
      FromBytesSnoc(c[1..], x);
      assert (c + [x])[1..] == c[1..] + [x];
      Pow2Add(8, 8 * |c[1..]|);
      assert Pow2(8) == 256;
      assert 8 + 8 * |c[1..]| == 8 * |c|;
      assert 256 * (x * Pow2(8 * |c[1..]|)) == x * Pow2(8 * |c|);
    }
  }
}
