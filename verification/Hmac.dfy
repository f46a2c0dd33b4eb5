// HMAC over a header and a payload fed as two chunks: section 2 of RFC 2104 with SHA-256 for the hash, and the
// choice between the built-in path and a plugged-in MAC function.

module Hmac {
  import opened Basics
  import opened Sha256
  import opened BlockStream

  const MAC_SIZE: nat := 32
  const INNER: bv8 := 0x36
  const OUTER: bv8 := 0x5c

  // --------------------------------------------------- section 2 of RFC 2104

  /** A block hash: its compressor, its first state and how a state becomes a digest. */
  datatype Algorithm<!S(!new)> = Algorithm(step: (S, Bytes) --> S, initial: S, digest: S -> Bytes) {
    ghost predicate Valid() {
      TakesBlocks(step) && forall s: S :: |digest(s)| == MAC_SIZE
    }

    ghost function Hash(m: Bytes): (d: Bytes)
      requires Valid()
      ensures |d| == MAC_SIZE
    {
      digest(OverBlocks(step, initial, Padded(m)))
    }

    /** A key longer than a block is replaced by its hash. */
    ghost function ShortKey(key: Bytes): (k: Bytes)
      requires Valid()
      ensures |k| <= BLOCK
    {
      if |key| > BLOCK then Hash(key) else key
    }

    /** H(K XOR opad, H(K XOR ipad, text)). */
    ghost function Hmac(key: Bytes, text: Bytes): (mac: Bytes)
      requires Valid()
      ensures |mac| == MAC_SIZE
    {
      var k := ZeroPadded(ShortKey(key));
      Hash(XorAll(k, OUTER) + Hash(XorAll(k, INNER) + text))
    }
  }

  /** A key with zeros appended up to the size of a block. */
  function ZeroPadded(k: Bytes): (b: Bytes)
    requires |k| <= BLOCK
    ensures |b| == BLOCK
  {
    k + Zeros(BLOCK - |k|)
  }

  function XorAll(b: Bytes, pad: bv8): (x: Bytes)
    ensures |x| == |b|
  {
    seq(|b|, i requires 0 <= i < |b| => b[i] ^ pad)
  }

  /** The keyed hash byte by byte: a key of up to 64 bytes, continued with zeros, is combined with 0x36 in front of the
      text and with 0x5c in front of that hash; a longer key counts as its hash. */
  lemma HmacByParts<S(!new)>(a: Algorithm<S>, key: Bytes, text: Bytes, inner: Bytes, outer: Bytes)
    requires a.Valid() && |key| <= 64 && |inner| == |outer| == 64
    requires forall k | 0 <= k < 64 :: inner[k] == (if k < |key| then key[k] else 0) ^ 0x36
    requires forall k | 0 <= k < 64 :: outer[k] == (if k < |key| then key[k] else 0) ^ 0x5c
    ensures a.Hmac(key, text) == a.Hash(outer + a.Hash(inner + text))
  {
    assert inner == XorAll(ZeroPadded(key), INNER) && outer == XorAll(ZeroPadded(key), OUTER);
  }

  lemma LongKeys<S(!new)>(a: Algorithm<S>, key: Bytes, text: Bytes)
    requires a.Valid() && |key| > 64
    ensures a.Hmac(key, text) == a.Hmac(a.Hash(key), text)
  {
  }

  const SHA256: Algorithm<State> := Algorithm(Compress, INITIAL, Digest)

  /** HMAC-SHA-256. */
  ghost function HmacSha256(key: Bytes, text: Bytes): (mac: Bytes)
    ensures |mac| == MAC_SIZE
  {
    SHA256.Hmac(key, text)
  }

  // ------------------------------------------------------------- the methods

  /** memset with the pad, then XOR the key over it. */
  method PadKey(k: Bytes, pad: bv8) returns (b: Bytes)
    requires |k| <= BLOCK
    ensures b == XorAll(ZeroPadded(k), pad)
  {
    var kPad := new bv8[BLOCK](_ => pad);
    for i := 0 to |k|
      invariant forall j | 0 <= j < i :: kPad[j] == k[j] ^ pad
      invariant forall j | i <= j < BLOCK :: kPad[j] == pad
    {
      kPad[i] := kPad[i] ^ k[i];
    }
    b := kPad[..];
  }

  /** One hash over up to three chunks; an empty chunk is not fed. */
  method HashChunks<S(!new)>(a: Algorithm<S>, first: Bytes, second: Bytes, third: Bytes) returns (d: Bytes)
    requires a.Valid()
    ensures d == a.Hash(first + second + third)
  {
    var s := new Stream(a.step, a.initial);
    s.Update(first);
    if second != [] { s.Update(second); }
    if third != [] { s.Update(third); }
    assert s.fed.All() == first + second + third;
    var h := s.Final();
    d := a.digest(h);
  }

  method HmacTwoChunk<S(!new)>(a: Algorithm<S>, key: Bytes, chunk1: Bytes, chunk2: Bytes) returns (mac: Bytes)
    requires a.Valid()
    ensures mac == a.Hmac(key, chunk1 + chunk2)
  {
    var k := key;
    if |key| > BLOCK {
      k := HashChunks(a, key, [], []);
      assert key + [] + [] == key;
    }
    var inner := PadKey(k, INNER);
    var ih := HashChunks(a, inner, chunk1, chunk2);
    assert inner + chunk1 + chunk2 == inner + (chunk1 + chunk2);
    var outer := PadKey(k, OUTER);
    mac := HashChunks(a, outer, ih, []);
    assert outer + ih + [] == outer + ih;
  }

  method HmacOneChunk(key: Bytes, data: Bytes) returns (mac: Bytes)
    ensures mac == HmacSha256(key, data)
  {
    mac := HmacTwoChunk(SHA256, key, data, []);
    assert data + [] == data;
  }

  /** A context without a key is disabled; without a plugged-in function the built-in path runs. */
  datatype Context = Context(key: Bytes, plugged: Option<(Bytes, Bytes) -> Bytes>)

  ghost function Mac(ctx: Context, message: Bytes): Bytes {
    if ctx.key == [] then Zeros(MAC_SIZE)
    else match ctx.plugged
      case Some(f) => f(ctx.key, message)
      case None => HmacSha256(ctx.key, message)
  }

  const HEADER_BYTES: nat := 32
  const STACK_BUFFER: nat := 512

  method ComputeMac(ctx: Context, header: Bytes, payload: Bytes) returns (mac: Bytes)
    requires |header| == HEADER_BYTES
    ensures mac == Mac(ctx, header + payload)
  {
    if ctx.key == [] { return Zeros(MAC_SIZE); }
    match ctx.plugged
    case Some(f) =>
      // The function wants one contiguous buffer: on the stack when it fits, on the heap otherwise.
      var total := HEADER_BYTES + |payload|;
      var size := if total <= STACK_BUFFER then STACK_BUFFER else total;
      var buffer := new bv8[size](_ => 0);
      for i := 0 to HEADER_BYTES
        invariant buffer[..i] == header[..i]
      {
        buffer[i] := header[i];
      }
      for i := 0 to |payload|
        invariant buffer[..HEADER_BYTES] == header && buffer[HEADER_BYTES..HEADER_BYTES + i] == payload[..i]
      {
        buffer[HEADER_BYTES + i] := payload[i];
      }
      assert buffer[..total] == buffer[..HEADER_BYTES] + buffer[HEADER_BYTES..total] == header + payload;
      mac := f(ctx.key, buffer[..total]);
    case None =>
      mac := HmacTwoChunk(SHA256, ctx.key, header, payload);
  }

  lemma OrZero(x: bv8, y: bv8)
    ensures x | y == 0 <==> x == 0 && y == 0
  {
  }

  lemma XorZero(x: bv8, y: bv8)
    ensures x ^ y == 0 <==> x == y
  {
  }

  /** Every byte is looked at, whatever the earlier ones said. */
  method SameBytes(a: Bytes, b: Bytes) returns (same: bool)
    requires |a| == |b|
    ensures same <==> a == b
  {
    var diff: bv8 := 0;
    for i := 0 to |a|
      invariant diff == 0 <==> a[..i] == b[..i]
    {
      XorZero(a[i], b[i]);
      OrZero(diff, a[i] ^ b[i]);
      assert a[..i + 1] == a[..i] + [a[i]] && b[..i + 1] == b[..i] + [b[i]];
      diff := diff | (a[i] ^ b[i]);
    }
    assert a[..|a|] == a && b[..|b|] == b;
    same := diff == 0;
  }

  /** A disabled context accepts everything, any other exactly its own MAC. */
  method VerifyMac(ctx: Context, header: Bytes, payload: Bytes, expected: Bytes) returns (ok: bool)
    requires |header| == HEADER_BYTES && |expected| == MAC_SIZE
    requires ctx.plugged.Some? ==> forall m :: |ctx.plugged.value(ctx.key, m)| == MAC_SIZE
    ensures ok <==> ctx.key == [] || expected == Mac(ctx, header + payload)
  {
    if ctx.key == [] { return true; }
    var mac := ComputeMac(ctx, header, payload);
    ok := SameBytes(mac, expected);
  }
}
