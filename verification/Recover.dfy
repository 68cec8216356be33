/** Ledger seed recovery: the root key of a seed and its hardened children,
    after BIP32-Ed25519 (Khovratovich and Law) with the clamp of section 5.1.5
    of RFC 8032. The two HMACs are uninterpreted functions. */
module Recover {
  import opened LittleEndian

  type Bytes = seq<u8>
  type Bytes32 = s: Bytes | |s| == 32 witness seq(32, _ => 0)
  type Bytes64 = s: Bytes | |s| == 64 witness seq(64, _ => 0)

  datatype Hmac = Hmac(sha512: (Bytes, Bytes) -> Bytes64, sha256: (Bytes, Bytes) -> Bytes32)

  /** The 64-byte key is kL || kR. */
  datatype ExtendedPrivateKey = ExtendedPrivateKey(kl: Bytes32, kr: Bytes32, chainCode: Bytes32) {
    function Key(): Bytes64 { kl + kr }
  }

  function FromKey(key: Bytes64, chainCode: Bytes32): (k: ExtendedPrivateKey)
    ensures k.Key() == key
  {
    ExtendedPrivateKey(key[..32], key[32..], chainCode)
  }

  datatype Outcome = Derived(key: ExtendedPrivateKey) | Panicked

  const HARDENED: nat := 0x8000_0000
  type Index = i: nat | i < 0x1_0000_0000

  // ---------------------------------------------------------------------
  // Carry loops

  /** out = a + b, and the carry out of the last byte, which is dropped: the
      one integer below 2^256 that is a + b up to a multiple of 2^256. */
  method AddScalar(out: array<u8>, a: Bytes32, b: Bytes32) returns (ghost lost: nat)
    requires out.Length == 32
    modifies out
    ensures Le(out[..]) + TWO_256 * lost == Le(a) + Le(b) && lost <= 1
  {
    hide Le, Pow256;
    var carry: u16 := 0;
    var i := 0;
    LeEmpty();
    while i < 32
      invariant 0 <= i <= 32
      invariant carry <= 1
      invariant Le(out[..i]) + Pow256(i) * carry as nat == Le(a[..i]) + Le(b[..i])
    {
      var sum := a[i] as u16 + b[i] as u16 + carry;
      out[i] := (sum % 0x100) as u8;
      ghost var carryIn := carry as nat;
      carry := sum / 0x100;
      SumStep(out[..i], a[..i], b[..i], out[i], a[i], b[i], carryIn, carry as nat);
      assert out[..i + 1] == out[..i] + [out[i]] && a[..i + 1] == a[..i] + [a[i]] && b[..i + 1] == b[..i] + [b[i]];
      i := i + 1;
    }
    assert out[..32] == out[..] && a[..32] == a && b[..32] == b;
    lost := carry as nat;
    Powers();
  }

  lemma SumStep(o: Bytes, a: Bytes, b: Bytes, x: u8, y: u8, z: u8, carryIn: nat, carry: nat)
    requires |o| == |a| == |b|
    requires x as nat + 256 * carry == y as nat + z as nat + carryIn
    requires Le(o) + Pow256(|o|) * carryIn == Le(a) + Le(b)
    ensures Le(o + [x]) + Pow256(|o| + 1) * carry == Le(a + [y]) + Le(b + [z])
  {
    LeConcat(o, [x]);
    LeConcat(a, [y]);
    LeConcat(b, [z]);
    assert Le([x]) == x as nat && Le([y]) == y as nat && Le([z]) == z as nat;
    Distribute(Pow256(|o|), x as nat, y as nat, z as nat, carryIn, carry);
  }

  lemma Distribute(p: nat, x: nat, y: nat, z: nat, carryIn: nat, carry: nat)
    requires x + 256 * carry == y + z + carryIn
    ensures p * x + (256 * p) * carry == p * y + p * z + p * carryIn
  {
    calc {
      p * x + (256 * p) * carry;
      p * (x + 256 * carry);
      p * (y + z + carryIn);
      p * y + p * z + p * carryIn;
    }
  }

  /** out = 8 * b + a for a 28-byte b: three doublings, in which no carry is
      lost, and one addition. */
  method AddScalarMul8(out: array<u8>, b: Bytes, a: Bytes32) returns (ghost lost: nat)
    requires out.Length == 32 && |b| == 28
    modifies out
    ensures Le(out[..]) + TWO_256 * lost == 8 * Le(b) + Le(a) && lost <= 1
  {
    var tmp: Bytes32 := b + seq(4, _ => 0);
    Pad(b);
    for k := 0 to 3
      invariant Le(tmp) == Doubled(Le(b), k)
    {
      var tmp2 := new u8[32];
      ghost var carry := AddScalar(tmp2, tmp, tmp);
      DoublingKeepsCarry(Le(b), k, Le(tmp2[..]), carry);
      tmp := tmp2[..];
    }
    DoubledThrice(Le(b));
    lost := AddScalar(out, tmp, a);
  }

  function Doubled(n: nat, k: nat): nat {
    if k == 0 then n else 2 * Doubled(n, k - 1)
  }

  lemma DoublingKeepsCarry(n: nat, k: nat, out: nat, carry: nat)
    requires n < TWO_224 && k < 3
    requires out + TWO_256 * carry == Doubled(n, k) + Doubled(n, k)
    ensures carry == 0 && out == Doubled(n, k + 1)
  {
    assert k > 0 ==> Doubled(n, k) == 2 * Doubled(n, k - 1);
    assert k > 1 ==> Doubled(n, k - 1) == 2 * Doubled(n, k - 2);
  }

  lemma DoubledThrice(n: nat)
    ensures Doubled(n, 3) == 8 * n
  {
    assert Doubled(n, 1) == 2 * n && Doubled(n, 2) == 4 * n;
  }

  lemma Pad(b: Bytes)
    requires |b| == 28
    ensures Le(b + seq(4, _ => 0)) == Le(b) < TWO_224
  {
    LeConcat(b, seq(4, _ => 0));
    LeZeros(4);
    LeBound(b);
    Powers();
  }

  // ---------------------------------------------------------------------
  // Root key

  const SK: Bytes := [0x65, 0x64, 0x32, 0x35, 0x35, 0x31, 0x39, 0x20, 0x73, 0x65, 0x65, 0x64] // "ed25519 seed"

  /** The bits of a byte. */
  function Bits(b: u8): (v: bv8)
    ensures v as int == b as int
    decreases b as int
  {
    if b == 0 then 0 else Bits(b - 1) + 1
  }

  predicate RetryBit(i: Bytes64) {
    Bits(i[31]) & 0x20 != 0
  }

  /** The candidate I after n retries. */
  function Candidate(h: Hmac, seed: Bytes, n: nat): Bytes64 {
    if n == 0 then h.sha512(SK, seed) else h.sha512(SK, Candidate(h, seed, n - 1))
  }

  /** The first candidate whose retry bit is clear has index n. */
  ghost predicate AcceptedAt(h: Hmac, seed: Bytes, n: nat) {
    !RetryBit(Candidate(h, seed, n)) && forall m: nat :: m < n ==> RetryBit(Candidate(h, seed, m))
  }

  function ClampLow(b: u8): u8 { (Bits(b) & 0xF8) as u8 }

  function ClampHigh(b: u8): u8 { ((Bits(b) & 0x7F) | 0x40) as u8 }

  function Root(h: Hmac, seed: Bytes, i: Bytes64): ExtendedPrivateKey {
    FromKey(i[0 := ClampLow(i[0])][31 := ClampHigh(i[31])], h.sha256(SK, [1] + seed))
  }

  /** The bytes of an ASCII text. */
  ghost predicate IsText(s: Bytes, text: string) {
    |s| == |text| && forall i :: 0 <= i < |s| ==> s[i] as int == text[i] as int
  }

  /** The first candidate is the HMAC of the seed, and each other one that of
      the one before. */
  ghost predicate IsTried(h: Hmac, seed: Bytes, sk: Bytes, tries: seq<Bytes64>) {
    && IsText(sk, "ed25519 seed") && tries != [] && tries[0] == h.sha512(sk, seed)
    && forall j :: 0 < j < |tries| ==> tries[j] == h.sha512(sk, tries[j - 1])
  }

  /** The retry loop ends: some candidate has bit 253 clear. */
  ghost predicate Terminates(h: Hmac, seed: Bytes) {
    exists sk, tries :: IsTried(h, seed, sk, tries) && !BitOf253(tries[|tries| - 1])
  }

  /** By the two HMACs alone: of the candidates, all but the last have bit 253
      set, and the last one's first half is clamped. The chain code is the HMAC
      of the seed itself. */
  ghost predicate IsRootOf(h: Hmac, seed: Bytes, sk: Bytes, tries: seq<Bytes64>, k: ExtendedPrivateKey) {
    && IsTried(h, seed, sk, tries)
    && (forall j :: 0 <= j < |tries| ==> (BitOf253(tries[j]) <==> j < |tries| - 1))
    && Clamped(k.kl, tries[|tries| - 1][..32]) && k.kr == tries[|tries| - 1][32..]
    && k.chainCode == h.sha256(sk, [1] + seed)
  }

  ghost predicate BitOf253(i: Bytes64) { (i[31] as int / 32) % 2 == 1 }

  ghost predicate Clamped(s: Bytes32, raw: Bytes32) {
    && s[0] as int == raw[0] as int - raw[0] as int % 8
    && s[1..31] == raw[1..31]
    && s[31] as int == raw[31] as int % 64 + 64
  }

  lemma {:induction false} TriedAt(h: Hmac, seed: Bytes, sk: Bytes, tries: seq<Bytes64>, j: nat)
    requires IsTried(h, seed, sk, tries) && j < |tries|
    ensures tries[j] == Candidate(h, seed, j)
  {
    TheText(sk);
    if j > 0 {
      TriedAt(h, seed, sk, tries, j - 1);
    }
  }

  lemma TheText(sk: Bytes)
    requires IsText(sk, "ed25519 seed")
    ensures sk == SK
  {
    forall i | 0 <= i < |sk|
      ensures sk[i] == SK[i]
    {
      assert sk[i] as int == SK[i] as int;
    }
  }

  lemma SomeAccepted(h: Hmac, seed: Bytes) returns (n: nat)
    requires Terminates(h, seed)
    ensures !RetryBit(Candidate(h, seed, n))
  {
    var sk, tries :| IsTried(h, seed, sk, tries) && !BitOf253(tries[|tries| - 1]);
    n := |tries| - 1;
    TriedAt(h, seed, sk, tries, n);
    RetryArithmetic(tries[n]);
  }

  /** The candidates up to the n-th. */
  ghost function Tries(h: Hmac, seed: Bytes, n: nat): seq<Bytes64> {
    seq(n + 1, i requires 0 <= i <= n => Candidate(h, seed, i))
  }

  lemma RootIsRoot(h: Hmac, seed: Bytes, n: nat)
    requires AcceptedAt(h, seed, n)
    ensures IsRootOf(h, seed, SK, Tries(h, seed, n), Root(h, seed, Candidate(h, seed, n)))
  {
    var tries, last := Tries(h, seed, n), Candidate(h, seed, n);
    var k := Root(h, seed, last);
    forall j | 0 <= j < |tries|
      ensures BitOf253(tries[j]) <==> j < |tries| - 1
    {
      RetryArithmetic(tries[j]);
    }
    ClampLowArithmetic(last[0]);
    ClampHighArithmetic(last[31]);
    assert k.kl[1..31] == last[..32][1..31] && k.kr == last[32..];
  }

  method LedgerDerivationFromSeed(h: Hmac, seed: Bytes) returns (k: ExtendedPrivateKey)
    requires Terminates(h, seed)
    ensures exists n: nat :: AcceptedAt(h, seed, n) && k == Root(h, seed, Candidate(h, seed, n))
    ensures exists sk, tries :: IsRootOf(h, seed, sk, tries, k)
  {
    var chainCode := h.sha256(SK, [1] + seed);
    var rawI := h.sha512(SK, seed);
    ghost var n: nat := 0;
    ghost var last := SomeAccepted(h, seed);
    while RetryBit(rawI)
      invariant n <= last && rawI == Candidate(h, seed, n)
      invariant forall m: nat :: m < n ==> RetryBit(Candidate(h, seed, m))
      decreases last - n
    {
      rawI := h.sha512(SK, rawI);
      n := n + 1;
    }
    assert AcceptedAt(h, seed, n);
    var key := new u8[64](i requires 0 <= i < 64 => rawI[i]);
    key[0] := ClampLow(key[0]);
    key[31] := ClampHigh(key[31]);
    assert key[..] == rawI[0 := ClampLow(rawI[0])][31 := ClampHigh(rawI[31])];
    k := FromKey(key[..], chainCode);
    RootIsRoot(h, seed, n);
  }

  lemma ClampLowArithmetic(b: u8)
    ensures ClampLow(b) as int == b as int - b as int % 8
  {
    MaskLow(Bits(b));
  }

  lemma ClampHighArithmetic(b: u8)
    ensures ClampHigh(b) as int == b as int % 64 + 64
  {
    MaskHigh(Bits(b));
  }

  lemma RetryArithmetic(i: Bytes64)
    ensures RetryBit(i) <==> (i[31] as int / 32) % 2 == 1
  {
    MaskRetry(Bits(i[31]));
  }

  lemma MaskLow(b: bv8)
    ensures (b & 0xF8) as int == b as int - b as int % 8
  {}

  lemma MaskHigh(b: bv8)
    ensures ((b & 0x7F) | 0x40) as int == b as int % 64 + 64
  {}

  lemma MaskRetry(b: bv8)
    ensures (b & 0x20 != 0) <==> (b as int / 32) % 2 == 1
  {}

  /** What the clamp and the retry loop leave of the scalar: a multiple of 8
      whose bits 255, 254, 253 are 0, 1, 0. */
  ghost predicate RootScalar(k: nat) {
    k % 8 == 0 && TWO_254 <= k < TWO_254 + TWO_253
  }

  lemma RootIsClamped(h: Hmac, seed: Bytes, n: nat)
    requires AcceptedAt(h, seed, n)
    ensures RootScalar(Le(Root(h, seed, Candidate(h, seed, n)).kl))
  {
    var i := Candidate(h, seed, n);
    var kl := Root(h, seed, i).kl;
    ClampLowArithmetic(i[0]);
    ClampHighArithmetic(i[31]);
    RetryArithmetic(i);
    assert kl[0] == ClampLow(i[0]) && kl[31] == ClampHigh(i[31]);
    LowBits(kl);
    HighBits(kl);
  }

  lemma LowBits(s: Bytes32)
    ensures Le(s) % 8 == s[0] as int % 8
  {
    assert Le(s) == s[0] as int + 256 * Le(s[1..]);
  }

  lemma HighBits(s: Bytes32)
    requires 64 <= s[31] as int < 96
    ensures TWO_254 <= Le(s) < TWO_254 + TWO_253
  {
    assert s == s[..31] + [s[31]];
    LeConcat(s[..31], [s[31]]);
    LeBound(s[..31]);
    assert Le([s[31]]) == s[31] as int;
    Power31();
    MulMono(s[31] as nat, 96, Pow256(31));
    MulMono(63, s[31] as nat, Pow256(31));
  }

  lemma Power31()
    ensures 64 * Pow256(31) == TWO_254 && 96 * Pow256(31) == TWO_254 + TWO_253
  {
    Powers();
    assert Pow256(31) == 256 * 256 * 256 * Pow256(28);
  }

  // ---------------------------------------------------------------------
  // Children

  /** What both HMACs of one step take: tag || parent key || index. */
  function StepInput(tag: u8, k: ExtendedPrivateKey, index: Index): Bytes {
    [tag] + k.Key() + ToLe(index, 4)
  }

  function Z(h: Hmac, k: ExtendedPrivateKey, index: Index): Bytes64 {
    h.sha512(k.chainCode, StepInput(0, k, index))
  }

  /** The 32 low bytes of n: n modulo 2^256. */
  function Bytes256(n: nat): Bytes32 {
    ToLe(n, 32)
  }

  lemma Bytes256Wraps(n: nat) returns (lost: nat)
    ensures Le(Bytes256(n)) + TWO_256 * lost == n
  {
    LeOfToLe(n, 32);
    Powers();
    lost := n / TWO_256;
  }

  lemma Bytes256Unique(s: Bytes32, n: nat, lost: nat)
    requires Le(s) + TWO_256 * lost == n
    ensures s == Bytes256(n)
  {
    Powers();
    ToLeOfLe(s, lost);
  }

  lemma BelowTwo256(s: Bytes32)
    ensures Le(s) < TWO_256
  {
    LeBound(s);
    Powers();
  }

  /** The hardened child of k, by integers: both HMACs use the parent. */
  function Child(h: Hmac, k: ExtendedPrivateKey, index: Index): ExtendedPrivateKey {
    var z := Z(h, k, index);
    ExtendedPrivateKey(
      Bytes256(8 * Le(z[..28]) + Le(k.kl)),
      Bytes256(Le(z[32..]) + Le(k.kr)),
      h.sha512(k.chainCode, StepInput(1, k, index))[32..])
  }

  function Derive(h: Hmac, k: ExtendedPrivateKey, path: seq<Index>): ExtendedPrivateKey
    decreases |path|
  {
    if path == [] then k else Derive(h, Child(h, k, path[0]), path[1..])
  }

  predicate Hardened(path: seq<Index>) {
    forall i :: 0 <= i < |path| ==> path[i] >= HARDENED
  }

  method DeriveHardened(h: Hmac, parent: ExtendedPrivateKey, path: seq<Index>) returns (r: Outcome)
    ensures r.Panicked? <==> exists i :: 0 <= i < |path| && path[i] < 0x8000_0000
    ensures r == if Hardened(path) then Derived(Derive(h, parent, path)) else Panicked
  {
    hide Derive, Child;
    var key: Bytes64, chainCode := parent.Key(), parent.chainCode;
    var tmp := new u8[69](_ => 0);
    ghost var k := parent;
    assert path[0..] == path;
    for i := 0 to |path|
      invariant key == k.Key() && chainCode == k.chainCode
      invariant Hardened(path[..i])
      invariant Derive(h, k, path[i..]) == Derive(h, parent, path)
    {
      if path[i] < HARDENED {
        return Panicked;
      }
      KeyParts(k);
      key, chainCode := Step(h, key, chainCode, path[i], tmp);
      DeriveNext(h, k, path, i);
      k := Child(h, k, path[i]);
    }
    assert path[..|path|] == path;
    DeriveEnd(h, k, path);
    KeyParts(k);
    r := Derived(FromKey(key, chainCode));
  }

  lemma DeriveNext(h: Hmac, k: ExtendedPrivateKey, path: seq<Index>, i: nat)
    requires i < |path|
    ensures Derive(h, k, path[i..]) == Derive(h, Child(h, k, path[i]), path[i + 1..])
  {
    hide Child;
    assert path[i..][0] == path[i] && path[i..][1..] == path[i + 1..];
  }

  lemma DeriveEnd(h: Hmac, k: ExtendedPrivateKey, path: seq<Index>)
    ensures Derive(h, k, path[|path|..]) == k
  {}

  lemma KeyParts(k: ExtendedPrivateKey)
    ensures FromKey(k.Key(), k.chainCode) == k
  {
    assert k.Key()[..32] == k.kl && k.Key()[32..] == k.kr;
  }

  /** By the HMAC alone: a child's halves are the integer sums modulo 2^256, and
      its chain code is the upper half of the second HMAC; both HMACs take the
      parent's key and are keyed with its chain code. */
  ghost predicate IsStep(h: Hmac, key: Bytes64, chainCode: Bytes32, index: Index, newKey: Bytes64, newChain: Bytes32) {
    var z := h.sha512(chainCode, [0] + key + ToLe(index, 4));
    && Le(newKey[..32]) == (8 * Le(z[..28]) + Le(key[..32])) % Pow256(32)
    && Le(newKey[32..]) == (Le(z[32..]) + Le(key[32..])) % Pow256(32)
    && newChain == h.sha512(chainCode, [1] + key + ToLe(index, 4))[32..]
  }

  lemma Bytes256Mod(n: nat)
    ensures Le(Bytes256(n)) == n % Pow256(32)
  {
    LeOfToLe(n, 32);
  }

  lemma StepIsStep(h: Hmac, k: ExtendedPrivateKey, index: Index)
    ensures var child := Child(h, k, index);
            IsStep(h, k.kl + k.kr, k.chainCode, index, child.kl + child.kr, child.chainCode)
  {
    hide Le, ToLe, Bytes256, Pow256;
    var z, child := Z(h, k, index), Child(h, k, index);
    Bytes256Mod(8 * Le(z[..28]) + Le(k.kl));
    Bytes256Mod(Le(z[32..]) + Le(k.kr));
    assert (k.kl + k.kr)[..32] == k.kl && (k.kl + k.kr)[32..] == k.kr;
    assert (child.kl + child.kr)[..32] == child.kl && (child.kl + child.kr)[32..] == child.kr;
  }

  /** Every step of every path is such a step. */
  lemma DeriveLast(h: Hmac, k: ExtendedPrivateKey, path: seq<Index>, index: Index)
    ensures var parent, child := Derive(h, k, path), Derive(h, k, path + [index]);
            IsStep(h, parent.kl + parent.kr, parent.chainCode, index, child.kl + child.kr, child.chainCode)
    ensures Derive(h, k, []) == k
  {
    hide IsStep, Child;
    DeriveConcat(h, k, path, [index]);
    assert Derive(h, Derive(h, k, path), [index]) == Child(h, Derive(h, k, path), index);
    StepIsStep(h, Derive(h, k, path), index);
  }

  /** One pass of the path loop. The buffer `tmp` is filled twice, both times
      with the parent's key. */
  method Step(h: Hmac, key: Bytes64, chainCode: Bytes32, index: Index, tmp: array<u8>)
    returns (newKey: Bytes64, newChain: Bytes32)
    requires tmp.Length == 69
    modifies tmp
    ensures
      var child := Child(h, FromKey(key, chainCode), index);
      newKey == child.Key() && newChain == child.chainCode
    ensures IsStep(h, key, chainCode, index, newKey, newChain)
  {
    StepIsStep(h, FromKey(key, chainCode), index);
    hide Le, Bytes256, IsStep;
    WriteStepInput(tmp, 0, key, index);
    var z: Bytes64 := h.sha512(chainCode, tmp[..]);
    newKey := AddToKey(z, key);
    WriteStepInput(tmp, 1, key, index);
    newChain := h.sha512(chainCode, tmp[..])[32..];
  }

  /** The two additions of a step. */
  method AddToKey(z: Bytes64, key: Bytes64) returns (newKey: Bytes64)
    ensures newKey == Bytes256(8 * Le(z[..28]) + Le(key[..32])) + Bytes256(Le(z[32..]) + Le(key[32..]))
  {
    hide Le, Bytes256;
    var kl, kr := new u8[32], new u8[32];
    ghost var lostL := AddScalarMul8(kl, z[..28], key[..32]);
    ghost var lostR := AddScalar(kr, z[32..], key[32..]);
    Bytes256Unique(kl[..], 8 * Le(z[..28]) + Le(key[..32]), lostL);
    Bytes256Unique(kr[..], Le(z[32..]) + Le(key[32..]), lostR);
    newKey := kl[..] + kr[..];
  }

  /** Fills the reused buffer with tag || key || index (little-endian). */
  method WriteStepInput(tmp: array<u8>, tag: u8, key: Bytes64, index: Index)
    requires tmp.Length == 69
    modifies tmp
    ensures tmp[..] == [tag] + key + ToLe(index, 4)
  {
    tmp[0] := tag;
    forall j | 0 <= j < 64 {
      tmp[1 + j] := key[j];
    }
    tmp[65] := (index % 0x100) as u8;
    tmp[66] := (index / 0x100 % 0x100) as u8;
    tmp[67] := (index / 0x1_0000 % 0x100) as u8;
    tmp[68] := (index / 0x100_0000 % 0x100) as u8;
    assert tmp[65..] == ToLe(index, 4) by { IndexBytes(index); }
    assert tmp[1..65] == key;
    assert tmp[..] == tmp[..1] + tmp[1..65] + tmp[65..];
  }

  lemma IndexBytes(index: Index)
    ensures ToLe(index, 4) == [(index % 0x100) as u8, (index / 0x100 % 0x100) as u8,
                               (index / 0x1_0000 % 0x100) as u8, (index / 0x100_0000 % 0x100) as u8]
  {
    var i1, i2, i3 := index / 0x100, index / 0x1_0000, index / 0x100_0000;
    assert i1 / 0x100 == i2 && i2 / 0x100 == i3;
    assert ToLe(i3, 1) == [(i3 % 0x100) as u8] + ToLe(i3 / 0x100, 0);
    assert ToLe(i2, 2) == [(i2 % 0x100) as u8] + ToLe(i3, 1);
    assert ToLe(i1, 3) == [(i1 % 0x100) as u8] + ToLe(i2, 2);
    assert ToLe(index, 4) == [(index % 0x100) as u8] + ToLe(i1, 3);
  }

  /** Deriving along p and then along q is deriving along p + q. */
  lemma {:induction false} DeriveConcat(h: Hmac, k: ExtendedPrivateKey, p: seq<Index>, q: seq<Index>)
    ensures Derive(h, Derive(h, k, p), q) == Derive(h, k, p + q)
    decreases |p|
  {
    if p == [] {
      assert p + q == q;
    } else {
      assert (p + q)[1..] == p[1..] + q;
      DeriveConcat(h, Child(h, k, p[0]), p[1..], q);
    }
  }

  /** The sum of the 28-byte ZL of every step of a path. */
  function SumZL(h: Hmac, k: ExtendedPrivateKey, path: seq<Index>): nat
    decreases |path|
  {
    if path == [] then 0 else Le(Z(h, k, path[0])[..28]) + SumZL(h, Child(h, k, path[0]), path[1..])
  }

  /** The sum of the 32-byte ZR of every step of a path. */
  function SumZR(h: Hmac, k: ExtendedPrivateKey, path: seq<Index>): nat
    decreases |path|
  {
    if path == [] then 0 else Le(Z(h, k, path[0])[32..]) + SumZR(h, Child(h, k, path[0]), path[1..])
  }

  /** For every key and every path, the derived kL is the parent's plus eight
      times the sum of the ZL, up to a multiple of 2^256. */
  lemma {:induction false} WrappedKL(h: Hmac, k: ExtendedPrivateKey, path: seq<Index>) returns (lost: nat)
    ensures Le(Derive(h, k, path).kl) + TWO_256 * lost == Le(k.kl) + 8 * SumZL(h, k, path)
    decreases |path|
  {
    hide Le, Bytes256, Z;
    if path == [] {
      lost := 0;
    } else {
      var c := Child(h, k, path[0]);
      var first := Bytes256Wraps(8 * Le(Z(h, k, path[0])[..28]) + Le(k.kl));
      var rest := WrappedKL(h, c, path[1..]);
      lost := first + rest;
    }
  }

  /** The same for kR, with the sum of the ZR. */
  lemma {:induction false} WrappedKR(h: Hmac, k: ExtendedPrivateKey, path: seq<Index>) returns (lost: nat)
    ensures Le(Derive(h, k, path).kr) + TWO_256 * lost == Le(k.kr) + SumZR(h, k, path)
    decreases |path|
  {
    hide Le, Bytes256, Z;
    if path == [] {
      lost := 0;
    } else {
      var c := Child(h, k, path[0]);
      var first := Bytes256Wraps(Le(Z(h, k, path[0])[32..]) + Le(k.kr));
      var rest := WrappedKR(h, c, path[1..]);
      lost := first + rest;
    }
  }

  /** For every key and every path, both halves of the derived key are the
      parent's plus the sums over the path, modulo 2^256. */
  lemma DerivedModulo(h: Hmac, k: ExtendedPrivateKey, path: seq<Index>)
    ensures Le(Derive(h, k, path).kl) == (Le(k.kl) + 8 * SumZL(h, k, path)) % TWO_256
    ensures Le(Derive(h, k, path).kr) == (Le(k.kr) + SumZR(h, k, path)) % TWO_256
  {
    var d := Derive(h, k, path);
    var l := WrappedKL(h, k, path);
    var r := WrappedKR(h, k, path);
    BelowTwo256(d.kl);
    BelowTwo256(d.kr);
    ModUnique(Le(k.kl) + 8 * SumZL(h, k, path), TWO_256, l, Le(d.kl));
    ModUnique(Le(k.kr) + SumZR(h, k, path), TWO_256, r, Le(d.kr));
  }

  lemma {:induction false} SumZLBound(h: Hmac, k: ExtendedPrivateKey, path: seq<Index>)
    ensures SumZL(h, k, path) <= |path| * (TWO_224 - 1)
    decreases |path|
  {
    if path != [] {
      LeBound(Z(h, k, path[0])[..28]);
      Powers();
      SumZLBound(h, Child(h, k, path[0]), path[1..]);
    }
  }

  const MAX_DEPTH: nat := 0x400_0000 // 2^26

  /** The scalar of a child at depth at most 2^26 is the exact integer
      kL0 + 8 * (sum of the ZL): it never wraps, stays a multiple of 8 and
      keeps bit 254 as its top bit. */
  lemma ScalarIsExact(h: Hmac, k: ExtendedPrivateKey, path: seq<Index>)
    requires RootScalar(Le(k.kl)) && |path| <= MAX_DEPTH
    ensures Le(Derive(h, k, path).kl) == Le(k.kl) + 8 * SumZL(h, k, path)
    ensures Le(Derive(h, k, path).kl) % 8 == 0
    ensures TWO_254 <= Le(Derive(h, k, path).kl) < TWO_255
  {
    var lost := WrappedKL(h, k, path);
    SumZLBound(h, k, path);
    NoWrap(Le(k.kl), SumZL(h, k, path), |path|, Le(Derive(h, k, path).kl), lost);
  }

  lemma NoWrap(k: nat, sum: nat, n: nat, derived: nat, lost: nat)
    requires RootScalar(k) && n <= MAX_DEPTH && sum <= n * (TWO_224 - 1)
    requires derived + TWO_256 * lost == k + 8 * sum
    ensures derived == k + 8 * sum < TWO_255 && derived % 8 == 0
  {
    MulMono(n, MAX_DEPTH, TWO_224 - 1);
    assert sum <= MAX_DEPTH * (TWO_224 - 1);
    assert 8 * (MAX_DEPTH * (TWO_224 - 1)) < TWO_253;
  }

  /** The spending scalar that recovery hands on, from a seed: whatever
      candidate the retry loop accepted, the scalar at the end of a path is
      that of the root plus eight times the sum of the ZL. */
  lemma RecoveredScalar(h: Hmac, seed: Bytes, n: nat, path: seq<Index>)
    requires AcceptedAt(h, seed, n) && |path| <= MAX_DEPTH
    ensures
      var root := Root(h, seed, Candidate(h, seed, n));
      var k := Le(Derive(h, root, path).kl);
      && k == Le(root.kl) + 8 * SumZL(h, root, path)
      && k % 8 == 0
      && TWO_254 <= k < TWO_255
  {
    RootIsClamped(h, seed, n);
    ScalarIsExact(h, Root(h, seed, Candidate(h, seed, n)), path);
  }

  /** For every seed and every path, however long: the integer sum modulo
      2^256, a multiple of 8, and the sum itself up to depth 2^26. */
  ghost predicate IsRecovered(h: Hmac, seed: Bytes, path: seq<Index>, child: nat, n: nat) {
    var root := Root(h, seed, Candidate(h, seed, n));
    var sum := Le(root.kl) + 8 * SumZL(h, root, path);
    && AcceptedAt(h, seed, n)
    && child == sum % TWO_256 && child % 8 == 0
    && (|path| <= MAX_DEPTH ==> child == sum && TWO_254 <= child < TWO_255)
  }

  lemma ChildIsRecovered(h: Hmac, seed: Bytes, n: nat, path: seq<Index>)
    requires AcceptedAt(h, seed, n)
    ensures IsRecovered(h, seed, path, Le(Derive(h, Root(h, seed, Candidate(h, seed, n)), path).kl), n)
  {
    hide Derive, SumZL, Le, AcceptedAt, Root;
    var root := Root(h, seed, Candidate(h, seed, n));
    RootIsClamped(h, seed, n);
    DerivedModulo(h, root, path);
    var lost := WrappedKL(h, root, path);
    MultipleOfEight(Le(root.kl), SumZL(h, root, path), Le(Derive(h, root, path).kl), TWO_253 * lost);
    if |path| <= MAX_DEPTH {
      RecoveredScalar(h, seed, n, path);
    }
  }

  lemma MultipleOfEight(k: nat, sum: nat, derived: nat, lost: nat)
    requires k % 8 == 0 && derived + 8 * lost == k + 8 * sum
    ensures derived % 8 == 0
  {}

  method DeriveEd25519PrivateKey(h: Hmac, seed: Bytes64, path: seq<Index>) returns (r: Outcome, child: Bytes32)
    requires Terminates(h, seed)
    ensures r.Panicked? <==> exists i :: 0 <= i < |path| && path[i] < 0x8000_0000
    ensures r.Derived? ==> exists n: nat :: IsRecovered(h, seed, path, Le(child), n)
  {
    var m := LedgerDerivationFromSeed(h, seed);
    r := DeriveHardened(h, m, path);
    child := if r.Derived? then r.key.kl else seq(32, _ => 0);
    ghost var n: nat :| AcceptedAt(h, seed, n) && m == Root(h, seed, Candidate(h, seed, n));
    ChildIsRecovered(h, seed, n, path);
  }

  /** The path of the recovery, 44'/coin'/0'/0'/0': the key handed on is the
      exact integer sum, and nothing fails. */
  method RecoverZip32Seed(h: Hmac, seed: Bytes64, coinType: nat) returns (child: Bytes32)
    requires Terminates(h, seed) && coinType < HARDENED
    ensures exists n: nat ::
      var path := [0x8000_002C, 0x8000_0000 + coinType, 0x8000_0000, 0x8000_0000, 0x8000_0000];
      var root := Root(h, seed, Candidate(h, seed, n));
      && AcceptedAt(h, seed, n) && Le(child) == Le(root.kl) + 8 * SumZL(h, root, path)
      && Le(child) % 8 == 0 && TWO_254 <= Le(child) < TWO_255
  {
    hide Le, SumZL, AcceptedAt, Root, Candidate, IsRecovered;
    var path: seq<Index> := [HARDENED + 0x2C, HARDENED + coinType, HARDENED, HARDENED, HARDENED];
    var r;
    r, child := DeriveEd25519PrivateKey(h, seed, path);
    ghost var n: nat :| IsRecovered(h, seed, path, Le(child), n);
    RecoveredAt(h, seed, path, Le(child), n);
  }

  lemma RecoveredAt(h: Hmac, seed: Bytes, path: seq<Index>, child: nat, n: nat)
    requires IsRecovered(h, seed, path, child, n) && |path| <= MAX_DEPTH
    ensures
      var root := Root(h, seed, Candidate(h, seed, n));
      && AcceptedAt(h, seed, n) && child == Le(root.kl) + 8 * SumZL(h, root, path)
      && child % 8 == 0 && TWO_254 <= child < TWO_255
  {}
}
