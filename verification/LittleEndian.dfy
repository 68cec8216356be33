/** Byte strings as little-endian integers: the reading that the carry loops
    of the key derivation are proved against. */
module LittleEndian {
  newtype u8 = x: int | 0 <= x < 0x100
  newtype u16 = x: int | 0 <= x < 0x1_0000

  const TWO_224: nat := 0x100000000_00000000_00000000_00000000_00000000_00000000_00000000
  const TWO_253: nat := 0x2000000000000000_0000000000000000_0000000000000000_0000000000000000
  const TWO_254: nat := 0x4000000000000000_0000000000000000_0000000000000000_0000000000000000
  const TWO_255: nat := 0x8000000000000000_0000000000000000_0000000000000000_0000000000000000
  const TWO_256: nat := 0x1_0000000000000000_0000000000000000_0000000000000000_0000000000000000

  function Pow256(n: nat): (p: nat)
    ensures p > 0
  {
    if n == 0 then 1 else 256 * Pow256(n - 1)
  }

  /** The integer that a little-endian byte string denotes. */
  function Le(s: seq<u8>): nat {
    if s == [] then 0 else s[0] as nat + 256 * Le(s[1..])
  }

  /** The `len` low bytes of n. */
  function ToLe(n: nat, len: nat): (s: seq<u8>)
    ensures |s| == len
  {
    if len == 0 then [] else [(n % 256) as u8] + ToLe(n / 256, len - 1)
  }

  lemma LeEmpty()
    ensures Le([]) == 0
  {}

  lemma {:induction false} LeBound(s: seq<u8>)
    ensures Le(s) < Pow256(|s|)
  {
    if s != [] {
      LeBound(s[1..]);
    }
  }

  lemma {:induction false} LeConcat(s: seq<u8>, t: seq<u8>)
    ensures Le(s + t) == Le(s) + Pow256(|s|) * Le(t)
  {
    if s == [] {
      assert s + t == t;
    } else {
      assert (s + t)[1..] == s[1..] + t;
      LeConcat(s[1..], t);
    }
  }

  /** A byte string is determined by its length and its integer, even up to
      a multiple of 256 to its length. */
  lemma {:induction false} ToLeOfLe(s: seq<u8>, w: nat)
    ensures ToLe(Le(s) + Pow256(|s|) * w, |s|) == s
  {
    if s != [] {
      var p := Pow256(|s| - 1);
      assert (256 * p) * w == 256 * (p * w);
      FirstByte(s[0], Le(s[1..]) + p * w, |s|);
      ToLeOfLe(s[1..], w);
    }
  }

  lemma FirstByte(b: u8, n: nat, len: nat)
    requires len > 0
    ensures ToLe(b as nat + 256 * n, len) == [b] + ToLe(n, len - 1)
  {
    var m := b as nat + 256 * n;
    assert m / 256 == n && m % 256 == b as nat;
    assert (m % 256) as u8 == b;
  }

  lemma {:induction false} LeOfToLe(n: nat, len: nat)
    ensures Le(ToLe(n, len)) == n % Pow256(len)
  {
    if len > 0 {
      var p := Pow256(len - 1);
      LeOfToLe(n / 256, len - 1);
      assert ToLe(n, len)[1..] == ToLe(n / 256, len - 1);
      ModSplit(n, p);
    }
  }

  lemma ModSplit(n: nat, p: nat)
    requires p > 0
    ensures n % 256 + 256 * ((n / 256) % p) == n % (256 * p)
  {
    var q, r := (n / 256) / p, (n / 256) % p;
    assert n / 256 == q * p + r;
    assert n == 256 * (q * p + r) + n % 256 == q * (256 * p) + (256 * r + n % 256);
    assert 256 * r + n % 256 < 256 * p;
    ModUnique(n, 256 * p, q, 256 * r + n % 256);
  }

  lemma ModUnique(n: nat, m: nat, q: nat, r: nat)
    requires r < m && n == q * m + r
    ensures n % m == r
  {
    var q' := n / m;
    MulMono(q', q, m);
    MulMono(q, q', m);
  }

  lemma {:induction false} MulMono(a: nat, b: nat, m: nat)
    ensures a < b ==> a * m + m <= b * m
  {
    if a + 1 < b {
      MulMono(a, b - 1, m);
    }
    assert b > 0 ==> b * m == (b - 1) * m + m;
  }

  lemma {:induction false} LeZeros(n: nat)
    ensures Le(seq(n, _ => 0 as u8)) == 0
  {
    if n > 0 {
      var z := seq(n, _ => 0 as u8);
      assert z[1..] == seq(n - 1, _ => 0 as u8);
      LeZeros(n - 1);
    }
  }

  lemma Powers()
    ensures Pow256(28) == TWO_224 && Pow256(32) == TWO_256
    ensures 8 * TWO_253 == TWO_256 && 4 * TWO_254 == TWO_256 && 2 * TWO_255 == TWO_256
  {
    assert Pow256(4) == 0x1_0000_0000;
    assert Pow256(8) == 0x1_0000_0000_0000_0000;
    assert Pow256(12) == 0x1_0000_0000_0000_0000_0000_0000;
    assert Pow256(16) == 0x1_0000_0000_0000_0000_0000_0000_0000_0000;
    assert Pow256(20) == 0x1_0000_0000_0000_0000_0000_0000_0000_0000_0000_0000;
    assert Pow256(24) == 0x1_0000_0000_0000_0000_0000_0000_0000_0000_0000_0000_0000_0000;
  }
}
