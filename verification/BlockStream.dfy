// Feeding a block hash piece by piece: however the message is cut into chunks, exactly the blocks of the message
// padded as section 5.1.1 of FIPS 180-4 says go through the compressor, in order.

module BlockStream {
  import opened Sha256

  /** Everything fed so far: the blocks already compressed and the bytes waiting in the buffer. */
  datatype Fed = Fed(done: Bytes, waiting: Bytes) {
    ghost predicate Valid() { |done| % BLOCK == 0 && |waiting| < BLOCK }
    function All(): Bytes { done + waiting }
  }

  /** The buffering of sha256_update and sha256_final around a compressor `step`. */
  class Stream<S(!new)> {
    const step: (S, Bytes) --> S
    const initial: S
    var h: S
    var bitLen: nat
    var buf: array<bv8>
    var used: nat
    ghost var fed: Fed

    ghost predicate Valid()
      reads this, buf
    {
      TakesBlocks(step) && h == OverBlocks(step, initial, fed.done)
      && buf.Length == BLOCK && used < BLOCK && buf[..used] == fed.waiting && fed.Valid()
      && bitLen == BitLength(|fed.All()|)
    }

    constructor (step: (S, Bytes) --> S, initial: S)
      requires TakesBlocks(step)
      ensures this.step == step && this.initial == initial
      ensures Valid() && fed.All() == [] && fresh(buf)
    {
      this.step, this.initial := step, initial;
      h, bitLen, used, fed := initial, 0, 0, Fed([], []);
      buf := new bv8[BLOCK];
    }

    method CopyIn(chunk: Bytes)
      requires used + |chunk| <= buf.Length
      modifies this`used, buf
      ensures used == old(used) + |chunk|
      ensures buf[..used] == old(buf[..used]) + chunk
    {
      for k := 0 to |chunk|
        invariant used == old(used)
        invariant buf[..used + k] == old(buf[..used]) + chunk[..k]
      {
        buf[used + k] := chunk[k];
      }
      used := used + |chunk|;
    }

    /** A full buffer goes through the compressor. */
    method Flush(ghost done: Bytes)
      requires buf.Length == BLOCK && used == BLOCK && |done| % BLOCK == 0
      requires TakesBlocks(step) && h == OverBlocks(step, initial, done)
      modifies this`h, this`used
      ensures used == 0 && h == OverBlocks(step, initial, done + buf[..])
    {
      OverOneBlock(step, initial, done, buf[..]);
      h := step(h, buf[..]);
      used := 0;
    }

    method AddLength(ghost m: nat, n: nat)
      requires bitLen == BitLength(m)
      modifies this`bitLen
      ensures bitLen == BitLength(m + n)
    {
      LengthAdds(m, n);
      bitLen := (bitLen + 8 * n) % LENGTH_MODULUS;
    }

    /** One turn of the update loop: at most as many bytes as the buffer has room for. */
    method Take(chunk: Bytes)
      requires Valid() && |chunk| <= BLOCK - used
      modifies this`h, this`bitLen, this`used, this`fed, buf
      ensures Valid() && fed.All() == old(fed).All() + chunk
    {
      ghost var done := fed.done;
      AddLength(|fed.All()|, |chunk|);
      CopyIn(chunk);
      fed := Fed(done, buf[..used]);
      if used == BLOCK {
        FlushFull(done);
      }
    }

    method FlushFull(ghost done: Bytes)
      requires buf.Length == BLOCK && used == BLOCK && |done| % BLOCK == 0 && fed == Fed(done, buf[..used])
      requires TakesBlocks(step) && h == OverBlocks(step, initial, done) && bitLen == BitLength(|fed.All()|)
      modifies this`h, this`used, this`fed
      ensures Valid() && fed.All() == old(fed).All()
    {
      assert buf[..] == buf[..used];
      Flush(done);
      fed := Fed(done + buf[..], []);
    }

    method Update(data: Bytes)
      requires Valid()
      modifies this`h, this`bitLen, this`used, this`fed, buf
      ensures Valid() && fed.All() == old(fed).All() + data
    {
      var pos := 0;
      while pos < |data|
        invariant 0 <= pos <= |data|
        invariant Valid() && fed.All() == old(fed).All() + data[..pos]
      {
        var room, left := BLOCK - used, |data| - pos;
        var take := if left < room then left else room;
        ghost var before := fed.All();
        Take(data[pos..pos + take]);
        Appended(old(fed).All(), data, pos, pos + take);
        pos := pos + take;
      }
      assert data[..pos] == data;
    }

    method ZeroFill(upTo: nat)
      requires used <= upTo <= buf.Length
      modifies this`used, buf
      ensures used == upTo && buf[..upTo] == old(buf[..used]) + Zeros(upTo - old(used))
    {
      while used < upTo
        invariant old(used) <= used <= upTo
        invariant buf[..used] == old(buf[..used]) + Zeros(used - old(used))
      {
        buf[used] := 0;
        used := used + 1;
      }
    }

    /** The marker byte; a block that leaves no room for the length goes through the compressor. */
    method Mark() returns (ghost done: Bytes)
      requires Valid()
      modifies this`h, this`used, buf
      ensures used <= 56 && |done| % BLOCK == 0 && h == OverBlocks(step, initial, done)
      ensures done + (buf[..used] + Zeros(56 - used)) == fed.All() + ([0x80] + Zeros(ZeroCount(|fed.All()|)))
    {
      done := fed.done;
      CopyIn([0x80]);
      ghost var start := buf[..used];
      if used > 56 {
        FillOut(done);
        PaddedTwoBlocks(fed, start);
        done := done + (start + Zeros(BLOCK - |start|));
        assert buf[..0] + Zeros(56) == Zeros(56);
      } else {
        PaddedOneBlock(fed, start);
      }
    }

    /** Zeros to the end of the block, which goes through the compressor. */
    method FillOut(ghost done: Bytes)
      requires buf.Length == BLOCK && used <= BLOCK && |done| % BLOCK == 0
      requires TakesBlocks(step) && h == OverBlocks(step, initial, done)
      modifies this`h, this`used, buf
      ensures used == 0
      ensures h == OverBlocks(step, initial, done + (old(buf[..used]) + Zeros(BLOCK - old(used))))
    {
      ZeroFill(BLOCK);
      assert buf[..] == buf[..BLOCK];
      Flush(done);
    }

    /** Zeros up to the length, the length, and the last block goes through the compressor. */
    method Close(length: Bytes, ghost done: Bytes)
      requires buf.Length == BLOCK && used <= 56 && |length| == 8 && |done| % BLOCK == 0
      requires TakesBlocks(step) && h == OverBlocks(step, initial, done)
      modifies this`h, this`used, buf
      ensures h == OverBlocks(step, initial, done + (old(buf[..used]) + Zeros(56 - old(used)) + length))
    {
      ghost var start := buf[..used];
      ZeroFill(56);
      CopyIn(length);
      assert buf[..] == buf[..BLOCK];
      Flush(done);
    }

    /** The state after everything fed and its padding; the context is used up. */
    method Final() returns (out: S)
      requires Valid()
      modifies this`h, this`used, buf
      ensures out == OverBlocks(step, initial, Padded(old(fed).All()))
    {
      ghost var done := Mark();
      ghost var m := fed.All();
      Regroup(done, buf[..used] + Zeros(56 - used), m, [0x80] + Zeros(ZeroCount(|m|)), LengthBytes(bitLen));
      Close(LengthBytes(bitLen), done);
      out := h;
    }
  }

  lemma Regroup(a: Bytes, b: Bytes, c: Bytes, d: Bytes, e: Bytes)
    requires a + b == c + d
    ensures a + (b + e) == c + (d + e)
  {
    assert a + (b + e) == (a + b) + e && c + (d + e) == (c + d) + e;
  }

  lemma Appended(before: Bytes, data: Bytes, m: nat, n: nat)
    requires m <= n <= |data|
    ensures before + data[..m] + data[m..n] == before + data[..n]
  {
    assert data[..m] + data[m..n] == data[..n];
  }

  /** With up to 55 bytes waiting the padding completes one block. */
  lemma PaddedOneBlock(m: Fed, start: Bytes)
    requires m.Valid() && |m.waiting| < 56 && start == m.waiting + [0x80]
    ensures m.done + (start + Zeros(56 - |start|)) == m.All() + ([0x80] + Zeros(ZeroCount(|m.All()|)))
  {
    assert |m.All()| % BLOCK == |m.waiting|;
  }

  /** With more it completes two. */
  lemma PaddedTwoBlocks(m: Fed, start: Bytes)
    requires m.Valid() && |m.waiting| >= 56 && start == m.waiting + [0x80]
    ensures m.done + (start + Zeros(BLOCK - |start|)) + Zeros(56) == m.All() + ([0x80] + Zeros(ZeroCount(|m.All()|)))
  {
    assert |m.All()| % BLOCK == |m.waiting|;
    assert Zeros(63 - |m.waiting|) + Zeros(56) == Zeros(119 - |m.waiting|);
  }

  /** The length in bits as the 64-bit counter holds it. */
  function BitLength(bytes: nat): nat { 8 * bytes % LENGTH_MODULUS }

  lemma LengthAdds(m: nat, n: nat)
    ensures (BitLength(m) + 8 * n) % LENGTH_MODULUS == BitLength(m + n)
  {
  }
}
