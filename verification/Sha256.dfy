// SHA-256 of auth.c: the compressor of section 6.2.2 of FIPS 180-4, the padding of its section 5.1.1, and a block
// function taken over all blocks of a byte string.

module Sha256 {
  import opened ByteNumbers

  // --------------------------------------- the functions of sections 4.1.2 and 6.2

  function RotateRight(x: bv32, n: bv32): bv32
    requires 0 < n < 32
  {
    (x >> n) | (x << (32 - n))
  }

  function SmallSigma0(x: bv32): bv32 { RotateRight(x, 7) ^ RotateRight(x, 18) ^ (x >> 3) }
  function SmallSigma1(x: bv32): bv32 { RotateRight(x, 17) ^ RotateRight(x, 19) ^ (x >> 10) }
  function BigSigma0(x: bv32): bv32 { RotateRight(x, 2) ^ RotateRight(x, 13) ^ RotateRight(x, 22) }
  function BigSigma1(x: bv32): bv32 { RotateRight(x, 6) ^ RotateRight(x, 11) ^ RotateRight(x, 25) }
  function Choice(e: bv32, f: bv32, g: bv32): bv32 { (e & f) ^ (!e & g) }
  function Majority(a: bv32, b: bv32, c: bv32): bv32 { (a & b) ^ (a & c) ^ (b & c) }

  /** Choice takes each bit from f where e has a one and from g where it has a zero. */
  lemma ChoiceChooses(e: bv32, f: bv32, g: bv32)
    ensures Choice(e, f, g) & e == f & e && Choice(e, f, g) & !e == g & !e
  {
  }

  /** Majority is what at least two of its arguments say. */
  lemma MajorityRules(x: bv32, y: bv32)
    ensures Majority(x, x, y) == x && Majority(x, y, x) == x && Majority(y, x, x) == x
  {
  }

  /** The constants of section 4.2.2, in rows of eight. */
  function Constants(row: nat): (ks: seq<bv32>)
    ensures |ks| == 8
  {
    match row
    case 0 => [0x428a2f98, 0x71374491, 0xb5c0fbcf, 0xe9b5dba5, 0x3956c25b, 0x59f111f1, 0x923f82a4, 0xab1c5ed5]
    case 1 => [0xd807aa98, 0x12835b01, 0x243185be, 0x550c7dc3, 0x72be5d74, 0x80deb1fe, 0x9bdc06a7, 0xc19bf174]
    case 2 => [0xe49b69c1, 0xefbe4786, 0x0fc19dc6, 0x240ca1cc, 0x2de92c6f, 0x4a7484aa, 0x5cb0a9dc, 0x76f988da]
    case 3 => [0x983e5152, 0xa831c66d, 0xb00327c8, 0xbf597fc7, 0xc6e00bf3, 0xd5a79147, 0x06ca6351, 0x14292967]
    case 4 => [0x27b70a85, 0x2e1b2138, 0x4d2c6dfc, 0x53380d13, 0x650a7354, 0x766a0abb, 0x81c2c92e, 0x92722c85]
    case 5 => [0xa2bfe8a1, 0xa81a664b, 0xc24b8b70, 0xc76c51a3, 0xd192e819, 0xd6990624, 0xf40e3585, 0x106aa070]
    case 6 => [0x19a4c116, 0x1e376c08, 0x2748774c, 0x34b0bcb5, 0x391c0cb3, 0x4ed8aa4a, 0x5b9cca4f, 0x682e6ff3]
    case _ => [0x748f82ee, 0x78a5636f, 0x84c87814, 0x8cc70208, 0x90befffa, 0xa4506ceb, 0xbef9a3f7, 0xc67178f2]
  }

  function K(t: nat): bv32
    requires t < 64
  {
    Constants(t / 8)[t % 8]
  }

  datatype State = State(a: bv32, b: bv32, c: bv32, d: bv32, e: bv32, f: bv32, g: bv32, h: bv32)

  const INITIAL := State(0x6a09e667, 0xbb67ae85, 0x3c6ef372, 0xa54ff53a, 0x510e527f, 0x9b05688c, 0x1f83d9ab, 0x5be0cd19)

  const BLOCK: nat := 64

  type Bytes = seq<bv8>

  function WordAt(block: Bytes, i: nat): bv32
    requires |block| == BLOCK && i < 16
  {
    ((block[4 * i] as bv32) << 24) | ((block[4 * i + 1] as bv32) << 16)
    | ((block[4 * i + 2] as bv32) << 8) | (block[4 * i + 3] as bv32)
  }

  /** A word of a block has its first byte highest. */
  lemma WordLayout(block: Bytes, i: nat)
    requires |block| == BLOCK && i < 16
    ensures var w := WordAt(block, i);
      && w >> 24 == block[4 * i] as bv32 && (w >> 16) & 0xFF == block[4 * i + 1] as bv32
      && (w >> 8) & 0xFF == block[4 * i + 2] as bv32 && w & 0xFF == block[4 * i + 3] as bv32
  {
    BytesOfWord(block[4 * i], block[4 * i + 1], block[4 * i + 2], block[4 * i + 3]);
  }

  lemma BytesOfWord(a: bv8, b: bv8, c: bv8, d: bv8)
    ensures var w := ((a as bv32) << 24) | ((b as bv32) << 16) | ((c as bv32) << 8) | (d as bv32);
      w >> 24 == a as bv32 && (w >> 16) & 0xFF == b as bv32 && (w >> 8) & 0xFF == c as bv32 && w & 0xFF == d as bv32
  {
  }

  /** Word t of the message schedule. */
  function Schedule(block: Bytes, t: nat): bv32
    requires |block| == BLOCK && t < 64
  {
    if t < 16 then WordAt(block, t)
    else Expand(Schedule(block, t - 16), Schedule(block, t - 15), Schedule(block, t - 7), Schedule(block, t - 2))
  }

  function Expand(w16: bv32, w15: bv32, w7: bv32, w2: bv32): bv32 { w16 + SmallSigma0(w15) + w7 + SmallSigma1(w2) }

  function Plus(x: bv32, y: bv32): bv32 { x + y }

  function Temp1(e: bv32, f: bv32, g: bv32, h: bv32, k: bv32, w: bv32): bv32 {
    h + BigSigma1(e) + Choice(e, f, g) + k + w
  }

  function Temp2(a: bv32, b: bv32, c: bv32): bv32 { BigSigma0(a) + Majority(a, b, c) }

  function Round(s: State, k: bv32, w: bv32): State {
    var t1, t2 := Temp1(s.e, s.f, s.g, s.h, k, w), Temp2(s.a, s.b, s.c);
    State(Plus(t1, t2), s.a, s.b, s.c, Plus(s.d, t1), s.e, s.f, s.g)
  }

  function Rounds(s: State, block: Bytes, t: nat): State
    requires |block| == BLOCK && t <= 64
  {
    if t == 0 then s else Round(Rounds(s, block, t - 1), K(t - 1), Schedule(block, t - 1))
  }

  function Add(s: State, r: State): State {
    State(Plus(s.a, r.a), Plus(s.b, r.b), Plus(s.c, r.c), Plus(s.d, r.d),
          Plus(s.e, r.e), Plus(s.f, r.f), Plus(s.g, r.g), Plus(s.h, r.h))
  }

  function Compress(s: State, block: Bytes): State
    requires |block| == BLOCK
  {
    Add(s, Rounds(s, block, 64))
  }

  /** f takes whole blocks. */
  ghost predicate TakesBlocks<S(!new)>(f: (S, Bytes) --> S) {
    forall s: S, block: Bytes | |block| == BLOCK :: f.requires(s, block)
  }

  /** f over all whole blocks of b, one after another. */
  ghost function OverBlocks<S(!new)>(f: (S, Bytes) --> S, s: S, b: Bytes): S
    requires TakesBlocks(f)
    decreases |b|
  {
    if |b| < BLOCK then s else OverBlocks(f, f(s, b[..BLOCK]), b[BLOCK..])
  }

  // ------------------------------------------------------------------ padding

  function Zeros(n: nat): (z: Bytes)
    ensures |z| == n
  {
    seq(n, _ => 0 as bv8)
  }

  const LENGTH_MODULUS: nat := 0x1_0000_0000_0000_0000

  /** The length in bits, eight bytes, most significant first. */
  function LengthBytes(bits: nat): (b: Bytes)
    requires bits < LENGTH_MODULUS
    ensures |b| == 8
  {
    ToBytes(LengthDigits(bits))
  }

  function LengthDigits(bits: nat): (ds: seq<nat>)
    requires bits < LENGTH_MODULUS
    ensures |ds| == 8 && AreDigits(ds)
  {
    [bits / 0x100_0000_0000_0000, bits / 0x1_0000_0000_0000 % 0x100, bits / 0x100_0000_0000 % 0x100,
     bits / 0x1_0000_0000 % 0x100, bits / 0x100_0000 % 0x100, bits / 0x1_0000 % 0x100, bits / 0x100 % 0x100,
     bits % 0x100]
  }

  /** The number of zero bytes that makes the padded message a whole number of blocks. */
  function ZeroCount(length: nat): (k: nat)
    ensures k < BLOCK && (length + 1 + k + 8) % BLOCK == 0
  {
    (BLOCK + 55 - length % BLOCK) % BLOCK
  }

  function Padding(length: nat): Bytes {
    [0x80] + Zeros(ZeroCount(length)) + LengthBytes(8 * length % LENGTH_MODULUS)
  }

  function Padded(m: Bytes): (p: Bytes)
    ensures |p| % BLOCK == 0 && m <= p
  {
    m + Padding(|m|)
  }

  lemma FirstDigits(bits: nat)
    requires bits < LENGTH_MODULUS
    ensures Value(LengthDigits(bits)[..4]) == bits / 0x1_0000_0000
  {
    var ds := LengthDigits(bits);
    Quotients(bits);
    assert ds[..0] == [];
    NextDigit(ds, 0, bits / 0x100_0000_0000_0000);
    NextDigit(ds, 1, bits / 0x1_0000_0000_0000);
    NextDigit(ds, 2, bits / 0x100_0000_0000);
    NextDigit(ds, 3, bits / 0x1_0000_0000);
  }

  lemma AllDigits(bits: nat)
    requires bits < LENGTH_MODULUS
    ensures Value(LengthDigits(bits)) == bits
  {
    var ds := LengthDigits(bits);
    FirstDigits(bits);
    Quotients(bits);
    NextDigit(ds, 4, bits / 0x100_0000);
    NextDigit(ds, 5, bits / 0x1_0000);
    NextDigit(ds, 6, bits / 0x100);
    NextDigit(ds, 7, bits);
    assert ds[..8] == ds;
  }

  lemma NumberOfLength(bits: nat)
    requires bits < LENGTH_MODULUS
    ensures Number(LengthBytes(bits)) == bits
  {
    NumberOfBytes(LengthDigits(bits));
    AllDigits(bits);
  }

  /** The padding of section 5.1.1: the bit 1, zeros, and the length in bits as a 64-bit number, in as few whole blocks
      as can hold them. */
  lemma PaddingIsStandard(m: Bytes)
    ensures var p := Padded(m);
      && |p| % 64 == 0 && |m| + 9 <= |p| < |m| + 9 + 64
      && p[..|m|] == m && p[|m|] == 0x80
      && (forall k | |m| < k < |p| - 8 :: p[k] == 0)
      && Number(p[|p| - 8..]) == 8 * |m| % 0x1_0000_0000_0000_0000
  {
    var p, length := Padded(m), LengthBytes(8 * |m| % LENGTH_MODULUS);
    NumberOfLength(8 * |m| % LENGTH_MODULUS);
    assert p[|p| - 8..] == length;
  }

  /** Padding loses nothing: up to 2^61 bytes different messages have different padded ones. */
  lemma PaddingIsInjective(a: Bytes, b: Bytes)
    requires |a| < 0x2000_0000_0000_0000 && |b| < 0x2000_0000_0000_0000
    requires Padded(a) == Padded(b)
    ensures a == b
  {
    PaddingIsStandard(a);
    PaddingIsStandard(b);
    assert |a| == |b|;
  }

  function WordBytes(x: bv32): Bytes {
    [(x >> 24) as bv8, ((x >> 16) & 0xFF) as bv8, ((x >> 8) & 0xFF) as bv8, (x & 0xFF) as bv8]
  }

  function Digest(s: State): (d: Bytes)
    ensures |d| == 32
  {
    WordBytes(s.a) + WordBytes(s.b) + WordBytes(s.c) + WordBytes(s.d)
    + WordBytes(s.e) + WordBytes(s.f) + WordBytes(s.g) + WordBytes(s.h)
  }

  lemma WordBytesLayout(x: bv32)
    ensures var b := WordBytes(x);
      && |b| == 4 && b[0] as bv32 == x >> 24 && b[1] as bv32 == (x >> 16) & 0xFF
      && b[2] as bv32 == (x >> 8) & 0xFF && b[3] as bv32 == x & 0xFF
  {
  }

  /** The digest is the eight words of the state in order, each with its high byte first. */
  lemma DigestLayout(s: State)
    ensures var d := Digest(s);
      && |d| == 32
      && d[0..4] == WordBytes(s.a) && d[4..8] == WordBytes(s.b)
      && d[8..12] == WordBytes(s.c) && d[12..16] == WordBytes(s.d)
      && d[16..20] == WordBytes(s.e) && d[20..24] == WordBytes(s.f) && d[24..28] == WordBytes(s.g)
      && d[28..32] == WordBytes(s.h)
  {
    EightPieces(WordBytes(s.a), WordBytes(s.b), WordBytes(s.c), WordBytes(s.d),
                WordBytes(s.e), WordBytes(s.f), WordBytes(s.g), WordBytes(s.h));
  }

  lemma EightPieces(a: Bytes, b: Bytes, c: Bytes, d: Bytes, e: Bytes, f: Bytes, g: Bytes, h: Bytes)
    requires |a| == |b| == |c| == |d| == |e| == |f| == |g| == |h| == 4
    ensures var s := a + b + c + d + e + f + g + h;
      && s[0..4] == a && s[4..8] == b && s[8..12] == c && s[12..16] == d
      && s[16..20] == e && s[20..24] == f && s[24..28] == g && s[28..32] == h
  {
  }

  // -------------------------------------------------------------- block by block

  lemma {:induction false} OverParts<S(!new)>(f: (S, Bytes) --> S, s: S, a: Bytes, b: Bytes)
    requires TakesBlocks(f) && |a| % BLOCK == 0
    ensures OverBlocks(f, s, a + b) == OverBlocks(f, OverBlocks(f, s, a), b)
    decreases |a|
  {
    if |a| == 0 {
      assert a + b == b;
    } else {
      assert (a + b)[..BLOCK] == a[..BLOCK] && (a + b)[BLOCK..] == a[BLOCK..] + b;
      OverParts(f, f(s, a[..BLOCK]), a[BLOCK..], b);
    }
  }

  lemma OverOneBlock<S(!new)>(f: (S, Bytes) --> S, s: S, a: Bytes, block: Bytes)
    requires TakesBlocks(f) && |a| % BLOCK == 0 && |block| == BLOCK
    ensures OverBlocks(f, s, a + block) == f(OverBlocks(f, s, a), block)
  {
    OverParts(f, s, a, block);
    assert block[..BLOCK] == block;
    assert OverBlocks(f, f(OverBlocks(f, s, a), block), block[BLOCK..]) == f(OverBlocks(f, s, a), block);
  }

  // ------------------------------------------------------------- the compressor

  method ExpandSchedule(block: Bytes) returns (w: array<bv32>)
    requires |block| == BLOCK
    ensures fresh(w) && w.Length == 64 && forall t {:trigger w[t]} | 0 <= t < 64 :: w[t] == Schedule(block, t)
  {
    w := new bv32[64];
    for i := 0 to 16
      invariant forall t {:trigger w[t]} | 0 <= t < i :: w[t] == Schedule(block, t)
    {
      w[i] := WordAt(block, i);
    }
    for i := 16 to 64
      invariant forall t {:trigger w[t]} | 0 <= t < i :: w[t] == Schedule(block, t)
    {
      w[i] := Expand(w[i - 16], w[i - 15], w[i - 7], w[i - 2]);
    }
  }

  /** sha256_compress: the function BlockStream and Hmac use as the step of SHA-256. */
  method CompressBlock(s: State, block: Bytes) returns (r: State)
    requires |block| == BLOCK
    ensures r == Compress(s, block)
  {
    var w := ExpandSchedule(block);
    var a, b, c, d, e, f, g, h := s.a, s.b, s.c, s.d, s.e, s.f, s.g, s.h;
    for i := 0 to 64
      invariant State(a, b, c, d, e, f, g, h) == Rounds(s, block, i)
    {
      var t1, t2 := Temp1(e, f, g, h, K(i), w[i]), Temp2(a, b, c);
      h := g;
      g := f;
      f := e;
      e := Plus(d, t1);
      d := c;
      c := b;
      b := a;
      a := Plus(t1, t2);
    }
    r := Add(s, State(a, b, c, d, e, f, g, h));
  }
}
