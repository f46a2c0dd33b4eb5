// What the two CRC-32 implementations compute, and which changes of a byte string the result gives away.

module Checksums {

  import opened Crc32

  // ------------------------------------------------------- the implementations

  /** The table-driven form, starting from a running value. */
  method ComputeIncremental(data: seq<bv8>, start: bv32) returns (crc: bv32)
    ensures crc == Crc(data, start)
  {
    crc := start;
    if data == [] { return; }
    for i := 0 to |data|
      invariant crc == Crc(data[..i], start)
    {
      TableStepIsFeed(crc, data[i]);
      crc := TableStep(crc, data[i]);
      assert data[..i + 1][..i] == data[..i];
    }
    assert data[..|data|] == data;
  }

  /** The one-shot form of the protocol layer. */
  method ComputeOneShot(data: seq<bv8>) returns (check: bv32)
    ensures check == Checksum(data)
  {
    if data == [] { return 0; }
    var crc := ComputeIncremental(data, ALL_ONES);
    check := Complement(crc);
  }

  /** The bit-by-bit form of the persistence layer. */
  method ComputeBitwise(data: seq<bv8>) returns (check: bv32)
    ensures check == Checksum(data)
  {
    var crc := ALL_ONES;
    for i := 0 to |data|
      invariant crc == Crc(data[..i], ALL_ONES)
    {
      ghost var before := crc;
      crc := Xor(crc, data[i] as bv32);
      for j := 0 to 8
        invariant Shifts(crc, 8 - j) == Feed(before, data[i])
      {
        if crc & 1 == 1 {
          crc := (crc >> 1) ^ POLY;
        } else {
          crc := crc >> 1;
        }
      }
      assert data[..i + 1][..i] == data[..i];
    }
    assert data[..|data|] == data;
    check := Complement(crc);
  }

  /** Streaming over any way of cutting a byte string equals the one-shot result. */
  method ComputeStreaming(chunks: seq<seq<bv8>>) returns (check: bv32)
    ensures check == Checksum(Joined(chunks))
  {
    var crc := ALL_ONES;
    for i := 0 to |chunks|
      invariant crc == Crc(Joined(chunks[..i]), ALL_ONES)
    {
      CrcOfParts(Joined(chunks[..i]), chunks[i], ALL_ONES);
      crc := ComputeIncremental(chunks[i], crc);
      assert chunks[..i + 1][..i] == chunks[..i];
    }
    assert chunks[..|chunks|] == chunks;
    check := Complement(crc);
  }

  function Joined(chunks: seq<seq<bv8>>): seq<bv8> {
    if chunks == [] then [] else Joined(chunks[..|chunks| - 1]) + chunks[|chunks| - 1]
  }

  // ------------------------------------------------------------- bit by bit

  /** The serial register of the standard: the incoming bit and the bit that falls out decide the feedback. */
  function SerialStep(crc: bv32, bit: bool): bv32 {
    if Odd(crc) != bit then Feedback(crc) else Half(crc)
  }

  /** n bits of b, the lowest first. */
  function Serial(crc: bv32, b: bv32, n: nat): bv32
    decreases n
  {
    if n == 0 then crc else Serial(SerialStep(crc, Odd(b)), Half(b), n - 1)
  }

  lemma {:induction false} SerialIsShifts(crc: bv32, b: bv32, n: nat)
    ensures Xor(Serial(crc, b, n), Halves(b, n)) == Shifts(Xor(crc, b), n)
    decreases n
  {
    if n > 0 {
      OddXor(crc, b);
      HalfXor(crc, b);
      FeedbackXor(crc, b);
      SerialIsShifts(SerialStep(crc, Odd(b)), Half(b), n - 1);
    }
  }

  lemma ByteUsedUp(b: bv8, x: bv32)
    ensures Halves(b as bv32, 8) == 0
    ensures Xor(x, 0) == x
  {
  }

  /** Feeding a byte is sending its eight bits through the serial register, lowest bit first. */
  lemma FeedIsSerial(crc: bv32, b: bv8)
    ensures Feed(crc, b) == Serial(crc, b as bv32, 8)
  {
    SerialIsShifts(crc, b as bv32, 8);
    ByteUsedUp(b, Serial(crc, b as bv32, 8));
  }

  // ---------------------------------------------------------------- detection

  lemma XorInjective(x: bv32, y: bv32, z: bv32)
    requires Xor(x, z) == Xor(y, z)
    ensures x == y
  {
  }

  lemma {:induction false} CrcInjective(data: seq<bv8>, x: bv32, y: bv32)
    requires Crc(data, x) == Crc(data, y)
    ensures x == y
  {
    if data != [] {
      var front, last := data[..|data| - 1], data[|data| - 1];
      ShiftsInjective(Xor(Crc(front, x), last as bv32), Xor(Crc(front, y), last as bv32), 8);
      XorInjective(Crc(front, x), Crc(front, y), last as bv32);
      CrcInjective(front, x, y);
    }
  }

  /** x a byte higher. */
  function Up(x: bv32): bv32 { x << 8 }

  lemma UpIsHigh(x: bv32)
    requires x & 0xFF00_0000 == 0
    ensures High(Up(x)) == Up(x) && Moved(Up(x)) == x
  {
  }

  lemma ShiftsOfUp(x: bv32, n: nat)
    requires x & 0xFF00_0000 == 0 && n == 8
    ensures Shifts(Up(x), n) == x
  {
    UpIsHigh(x);
    HighEmpty(Up(x));
    HighMoved(Up(x));
    ShiftsOfEmptyLow(Up(x), n);
  }

  lemma {:induction false} ShiftsAdd(x: bv32, m: nat, n: nat)
    ensures Shifts(Shifts(x, m), n) == Shifts(x, m + n)
    decreases m
  {
    if m > 0 {
      ShiftsAdd(Shift(x), m - 1, n);
    }
  }

  lemma CrcOfOneMore(d: seq<bv8>, b: bv8, x: bv32, n: nat)
    requires n == 8
    ensures Crc(d + [b], x) == Shifts(Xor(Crc(d, x), b as bv32), n)
  {
    assert (d + [b])[..|d|] == d;
  }

  /** A byte fed later could have been put in earlier, further up. */
  lemma FedLater(d: seq<bv8>, b: bv8, x: bv32, y: bv32, up: bv32, m: nat, n: nat)
    requires n == 8 && Crc(d, x) == Shifts(y, m) && Shifts(up, m) == b as bv32
    ensures Crc(d + [b], x) == Shifts(Xor(y, up), m + n)
  {
    CrcOfOneMore(d, b, x, n);
    ShiftsLinear(y, up, m);
    ShiftsAdd(Xor(y, up), m, n);
  }

  lemma BytesGoUp(b: bv8)
    ensures (b as bv32) & 0xFF00_0000 == 0
    ensures Up(b as bv32) & 0xFF00_0000 == 0
    ensures Up(Up(b as bv32)) & 0xFF00_0000 == 0
  {
  }

  lemma UpBack(b: bv8, n: nat)
    requires n == 8
    ensures Shifts(Up(b as bv32), n) == b as bv32
    ensures Shifts(Up(Up(b as bv32)), n + n) == b as bv32
    ensures Shifts(Up(Up(Up(b as bv32))), n + n + n) == b as bv32
  {
    var x := b as bv32;
    BytesGoUp(b);
    ShiftsOfUp(x, n);
    ShiftsOfUp(Up(x), n);
    ShiftsOfUp(Up(Up(x)), n);
    ShiftsAdd(Up(Up(x)), n, n);
    ShiftsAdd(Up(Up(Up(x))), n, n + n);
  }

  /** Four bytes in one word, the first byte lowest. */
  function Word(d0: bv8, d1: bv8, d2: bv8, d3: bv8): bv32 {
    Xor(Xor(Xor(d0 as bv32, Up(d1 as bv32)), Up(Up(d2 as bv32))), Up(Up(Up(d3 as bv32))))
  }

  function ByteOf(w: bv32): bv8 { (w & 0xFF) as bv8 }

  lemma BytesOfWord(d0: bv8, d1: bv8, d2: bv8, d3: bv8)
    ensures ByteOf(Word(d0, d1, d2, d3)) == d0
    ensures ByteOf(Moved(Word(d0, d1, d2, d3))) == d1
    ensures ByteOf(Moved(Moved(Word(d0, d1, d2, d3)))) == d2
    ensures ByteOf(Moved(Moved(Moved(Word(d0, d1, d2, d3))))) == d3
  {
  }

  lemma WordReordered(x: bv32, d0: bv8, d1: bv8, d2: bv8, d3: bv8)
    ensures Xor(Xor(Xor(Xor(x, d0 as bv32), Up(d1 as bv32)), Up(Up(d2 as bv32))), Up(Up(Up(d3 as bv32))))
         == Xor(Word(d0, d1, d2, d3), x)
  {
    XorReordered(x, d0 as bv32, Up(d1 as bv32), Up(Up(d2 as bv32)), Up(Up(Up(d3 as bv32))));
  }

  lemma XorReordered(x: bv32, a: bv32, b: bv32, c: bv32, d: bv32)
    ensures Xor(Xor(Xor(Xor(x, a), b), c), d) == Xor(Xor(Xor(Xor(a, b), c), d), x)
  {
  }

  lemma FedFour(d0: bv8, d1: bv8, d2: bv8, d3: bv8, u1: bv32, u2: bv32, u3: bv32, x: bv32, n: nat)
    requires n == 8 && Shifts(u1, n) == d1 as bv32
    requires Shifts(u2, n + n) == d2 as bv32 && Shifts(u3, n + n + n) == d3 as bv32
    ensures Crc([] + [d0] + [d1] + [d2] + [d3], x)
         == Shifts(Xor(Xor(Xor(Xor(x, d0 as bv32), u1), u2), u3), n + n + n + n)
  {
    var x0 := Xor(x, d0 as bv32);
    FedLater([], d0, x, x, d0 as bv32, 0, n);
    FedLater([] + [d0], d1, x, x0, u1, n, n);
    FedLater([] + [d0] + [d1], d2, x, Xor(x0, u1), u2, n + n, n);
    FedLater([] + [d0] + [d1] + [d2], d3, x, Xor(Xor(x0, u1), u2), u3, n + n + n, n);
  }

  /** Four bytes go in one after another or all at once. */
  lemma FourAtOnce(d0: bv8, d1: bv8, d2: bv8, d3: bv8, x: bv32, n: nat)
    requires n == 8
    ensures Crc([] + [d0] + [d1] + [d2] + [d3], x) == Shifts(Xor(Word(d0, d1, d2, d3), x), n + n + n + n)
  {
    UpBack(d1, n);
    UpBack(d2, n);
    UpBack(d3, n);
    FedFour(d0, d1, d2, d3, Up(d1 as bv32), Up(Up(d2 as bv32)), Up(Up(Up(d3 as bv32))), x, n);
    WordReordered(x, d0, d1, d2, d3);
  }

  lemma WordInjective(d0: bv8, d1: bv8, d2: bv8, d3: bv8, e0: bv8, e1: bv8, e2: bv8, e3: bv8)
    requires Word(d0, d1, d2, d3) == Word(e0, e1, e2, e3)
    ensures d0 == e0 && d1 == e1 && d2 == e2 && d3 == e3
  {
    BytesOfWord(d0, d1, d2, d3);
    BytesOfWord(e0, e1, e2, e3);
  }

  lemma WordInjectiveInCrc(v: bv32, w: bv32, x: bv32, n: nat)
    requires Shifts(Xor(v, x), n) == Shifts(Xor(w, x), n)
    ensures v == w
  {
    ShiftsInjective(Xor(v, x), Xor(w, x), n);
    XorInjective(v, w, x);
  }

  lemma FourInPlace(d: seq<bv8>)
    requires |d| == 4
    ensures d == [] + [d[0]] + [d[1]] + [d[2]] + [d[3]]
  {
  }

  lemma CrcOfFour(d: seq<bv8>, x: bv32, n: nat)
    requires |d| == 4 && n == 32
    ensures Crc(d, x) == Shifts(Xor(Word(d[0], d[1], d[2], d[3]), x), n)
  {
    FourInPlace(d);
    FourAtOnce(d[0], d[1], d[2], d[3], x, 8);
  }

  lemma FourBytesInjective(d: seq<bv8>, e: seq<bv8>, x: bv32)
    requires |d| == 4 && |e| == 4 && Crc(d, x) == Crc(e, x)
    ensures d == e
  {
    CrcOfFour(d, x, 32);
    CrcOfFour(e, x, 32);
    WordInjectiveInCrc(Word(d[0], d[1], d[2], d[3]), Word(e[0], e[1], e[2], e[3]), x, 32);
    WordInjective(d[0], d[1], d[2], d[3], e[0], e[1], e[2], e[3]);
  }

  /** Up to four bytes: the register after them tells them apart. */
  lemma FewBytesInjective(d: seq<bv8>, e: seq<bv8>, x: bv32)
    requires |d| == |e| <= 4 && Crc(d, x) == Crc(e, x)
    ensures d == e
  {
    var pad := seq(4 - |d|, i => 0 as bv8);
    CrcOfParts(d, pad, x);
    CrcOfParts(e, pad, x);
    FourBytesInjective(d + pad, e + pad, x);
    assert d == (d + pad)[..|d|] && e == (e + pad)[..|d|];
  }

  /** A change confined to at most four neighbouring bytes always changes the check value. */
  lemma BurstDetected(front: seq<bv8>, d: seq<bv8>, e: seq<bv8>, back: seq<bv8>, x: bv32)
    requires |d| == |e| <= 4
    ensures Crc(front + d + back, x) == Crc(front + e + back, x) <==> d == e
  {
    CrcOfParts(front + d, back, x);
    CrcOfParts(front + e, back, x);
    CrcOfParts(front, d, x);
    CrcOfParts(front, e, x);
    if Crc(front + d + back, x) == Crc(front + e + back, x) {
      CrcInjective(back, Crc(front + d, x), Crc(front + e, x));
      FewBytesInjective(d, e, Crc(front, x));
    }
  }

  // ----------------------------------------------------------- a known answer

  lemma FedOneMore(d: seq<bv8>, b: bv8, x: bv32, y: bv32)
    requires Crc(d, ALL_ONES) == x && Feed(x, b) == y
    ensures Crc(d + [b], ALL_ONES) == y
  {
    assert (d + [b])[..|d|] == d;
  }

  lemma CheckStep1()
    ensures Feed(0xFFFFFFFF, 0x31) == 0x7C231048
  {
  }

  lemma CheckStep2()
    ensures Feed(0x7C231048, 0x32) == 0xB0ACBB32
  {
  }

  lemma CheckStep3()
    ensures Feed(0xB0ACBB32, 0x33) == 0x77B79C2D
  {
  }

  lemma CheckStep4()
    ensures Feed(0x77B79C2D, 0x34) == 0x641C1F5C
  {
  }

  lemma CheckStep5()
    ensures Feed(0x641C1F5C, 0x35) == 0x340AC5E3
  {
  }

  lemma CheckStep6()
    ensures Feed(0x340AC5E3, 0x36) == 0xF68D2C9E
  {
  }

  lemma CheckStep7()
    ensures Feed(0xF68D2C9E, 0x37) == 0xAFFC9660
  {
  }

  lemma CheckStep8()
    ensures Feed(0xAFFC9660, 0x38) == 0x651F2550
  {
  }

  lemma CheckStep9()
    ensures Feed(0x651F2550, 0x39) == 0x340BC6D9
  {
  }

  /** The check value published for this function: that of the nine characters 123456789. */
  lemma CheckValue()
    ensures Checksum([0x31, 0x32, 0x33, 0x34, 0x35, 0x36, 0x37, 0x38, 0x39]) == 0xCBF43926
  {
    var d: seq<bv8> := [];
    CheckStep1();
    FedOneMore(d, 0x31, 0xFFFFFFFF, 0x7C231048);
    d := d + [0x31];
    CheckStep2();
    FedOneMore(d, 0x32, 0x7C231048, 0xB0ACBB32);
    d := d + [0x32];
    CheckStep3();
    FedOneMore(d, 0x33, 0xB0ACBB32, 0x77B79C2D);
    d := d + [0x33];
    CheckStep4();
    FedOneMore(d, 0x34, 0x77B79C2D, 0x641C1F5C);
    d := d + [0x34];
    CheckStep5();
    FedOneMore(d, 0x35, 0x641C1F5C, 0x340AC5E3);
    d := d + [0x35];
    CheckStep6();
    FedOneMore(d, 0x36, 0x340AC5E3, 0xF68D2C9E);
    d := d + [0x36];
    CheckStep7();
    FedOneMore(d, 0x37, 0xF68D2C9E, 0xAFFC9660);
    d := d + [0x37];
    CheckStep8();
    FedOneMore(d, 0x38, 0xAFFC9660, 0x651F2550);
    d := d + [0x38];
    CheckStep9();
    FedOneMore(d, 0x39, 0x651F2550, 0x340BC6D9);
    d := d + [0x39];
    assert d == [0x31, 0x32, 0x33, 0x34, 0x35, 0x36, 0x37, 0x38, 0x39];
  }
}
