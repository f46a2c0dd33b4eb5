// The two CRC-32 implementations: the table-driven one of the protocol layer and the bit-by-bit one of the
// persistence layer compute the same function, the frame check sequence of section 3.2.9 of IEEE 802.3.

module Crc32 {

  // ------------------------------------------------------------ the register

  const POLY: bv32 := 0xEDB88320

  predicate Odd(x: bv32) { x & 1 == 1 }

  /** The register moves one place and nothing is brought in. */
  function Half(x: bv32): bv32 { x >> 1 }

  function Xor(x: bv32, y: bv32): bv32 { x ^ y }

  /** The register moves one place and the polynomial is brought in. */
  function Feedback(x: bv32): bv32 { (x >> 1) ^ POLY }

  /** The register moves one place; the bit that falls out decides. */
  function Shift(x: bv32): bv32 {
    if Odd(x) then Feedback(x) else Half(x)
  }

  function Shifts(x: bv32, n: nat): bv32
    decreases n
  {
    if n == 0 then x else Shifts(Shift(x), n - 1)
  }

  function Halves(x: bv32, n: nat): bv32
    decreases n
  {
    if n == 0 then x else Halves(Half(x), n - 1)
  }

  // ----------------------------------------------------- algebra of the shifts

  lemma OddXor(x: bv32, y: bv32)
    ensures Odd(Xor(x, y)) <==> Odd(x) != Odd(y)
  {
  }

  lemma HalfXor(x: bv32, y: bv32)
    ensures Half(Xor(x, y)) == Xor(Half(x), Half(y))
    ensures Half(Xor(x, y)) == Xor(Feedback(x), Feedback(y))
  {
  }

  lemma FeedbackXor(x: bv32, y: bv32)
    ensures Feedback(Xor(x, y)) == Xor(Feedback(x), Half(y))
    ensures Feedback(Xor(x, y)) == Xor(Half(x), Feedback(y))
  {
  }

  /** Shifting is linear over exclusive or. */
  lemma {:induction false} ShiftsLinear(x: bv32, y: bv32, n: nat)
    ensures Shifts(Xor(x, y), n) == Xor(Shifts(x, n), Shifts(y, n))
    decreases n
  {
    if n > 0 {
      ShiftsLinear(Shift(x), Shift(y), n - 1);
      OddXor(x, y);
      HalfXor(x, y);
      FeedbackXor(x, y);
    }
  }

  /** Nothing is lost: the top bit of the result tells whether the polynomial was brought in. */
  lemma ShiftInjective(x: bv32, y: bv32)
    requires Shift(x) == Shift(y)
    ensures x == y
  {
  }

  lemma {:induction false} ShiftsInjective(x: bv32, y: bv32, n: nat)
    requires Shifts(x, n) == Shifts(y, n)
    ensures x == y
    decreases n
  {
    if n > 0 {
      ShiftsInjective(Shift(x), Shift(y), n - 1);
      ShiftInjective(x, y);
    }
  }

  // -------------------------------------------- what the low bits bring in

  /** The last n bits of the register are empty. */
  predicate EmptyLow(x: bv32, n: nat)
    decreases n
  {
    n == 0 || (!Odd(x) && EmptyLow(Half(x), n - 1))
  }

  lemma {:induction false} ShiftsOfEmptyLow(x: bv32, n: nat)
    requires EmptyLow(x, n)
    ensures Shifts(x, n) == Halves(x, n)
    decreases n
  {
    if n > 0 {
      ShiftsOfEmptyLow(Half(x), n - 1);
    }
  }

  /** All but the last byte of the register, and the last byte. */
  function High(x: bv32): bv32 { x & 0xFFFF_FF00 }
  function Low(x: bv32): bv32 { x & 0xFF }

  /** The register moved eight places. */
  function Moved(x: bv32): bv32 { x >> 8 }

  lemma HighAndLow(x: bv32)
    ensures x == Xor(High(x), Low(x))
  {
  }

  lemma HighEmpty(x: bv32)
    ensures EmptyLow(High(x), 8)
  {
    var h := High(x);
    assert !Odd(h) && !Odd(Half(h));
    assert !Odd(Half(Half(h))) && !Odd(Half(Half(Half(h))));
    assert !Odd(Half(Half(Half(Half(h))))) && !Odd(Half(Half(Half(Half(Half(h))))));
    assert !Odd(Half(Half(Half(Half(Half(Half(h))))))) && !Odd(Half(Half(Half(Half(Half(Half(Half(h))))))));
  }

  lemma HighMoved(x: bv32)
    ensures Halves(High(x), 8) == Moved(x)
  {
  }

  /** The identity behind the table: the low byte decides what is brought in, the rest only moves. */
  lemma ShiftsSplit(x: bv32, n: nat)
    requires n == 8
    ensures Shifts(x, n) == Xor(Moved(x), Shifts(Low(x), n))
  {
    HighAndLow(x);
    HighEmpty(x);
    HighMoved(x);
    ShiftsOfEmptyLow(High(x), n);
    ShiftsLinear(High(x), Low(x), n);
  }

  // ---------------------------------------------------------------- the table

  const ROW_0: seq<bv32> := [
    0x00000000, 0x77073096, 0xEE0E612C, 0x990951BA,
    0x076DC419, 0x706AF48F, 0xE963A535, 0x9E6495A3,
    0x0EDB8832, 0x79DCB8A4, 0xE0D5E91E, 0x97D2D988,
    0x09B64C2B, 0x7EB17CBD, 0xE7B82D07, 0x90BF1D91
  ]

  const ROW_1: seq<bv32> := [
    0x1DB71064, 0x6AB020F2, 0xF3B97148, 0x84BE41DE,
    0x1ADAD47D, 0x6DDDE4EB, 0xF4D4B551, 0x83D385C7,
    0x136C9856, 0x646BA8C0, 0xFD62F97A, 0x8A65C9EC,
    0x14015C4F, 0x63066CD9, 0xFA0F3D63, 0x8D080DF5
  ]

  const ROW_2: seq<bv32> := [
    0x3B6E20C8, 0x4C69105E, 0xD56041E4, 0xA2677172,
    0x3C03E4D1, 0x4B04D447, 0xD20D85FD, 0xA50AB56B,
    0x35B5A8FA, 0x42B2986C, 0xDBBBC9D6, 0xACBCF940,
    0x32D86CE3, 0x45DF5C75, 0xDCD60DCF, 0xABD13D59
  ]

  const ROW_3: seq<bv32> := [
    0x26D930AC, 0x51DE003A, 0xC8D75180, 0xBFD06116,
    0x21B4F4B5, 0x56B3C423, 0xCFBA9599, 0xB8BDA50F,
    0x2802B89E, 0x5F058808, 0xC60CD9B2, 0xB10BE924,
    0x2F6F7C87, 0x58684C11, 0xC1611DAB, 0xB6662D3D
  ]

  const ROW_4: seq<bv32> := [
    0x76DC4190, 0x01DB7106, 0x98D220BC, 0xEFD5102A,
    0x71B18589, 0x06B6B51F, 0x9FBFE4A5, 0xE8B8D433,
    0x7807C9A2, 0x0F00F934, 0x9609A88E, 0xE10E9818,
    0x7F6A0DBB, 0x086D3D2D, 0x91646C97, 0xE6635C01
  ]

  const ROW_5: seq<bv32> := [
    0x6B6B51F4, 0x1C6C6162, 0x856530D8, 0xF262004E,
    0x6C0695ED, 0x1B01A57B, 0x8208F4C1, 0xF50FC457,
    0x65B0D9C6, 0x12B7E950, 0x8BBEB8EA, 0xFCB9887C,
    0x62DD1DDF, 0x15DA2D49, 0x8CD37CF3, 0xFBD44C65
  ]

  const ROW_6: seq<bv32> := [
    0x4DB26158, 0x3AB551CE, 0xA3BC0074, 0xD4BB30E2,
    0x4ADFA541, 0x3DD895D7, 0xA4D1C46D, 0xD3D6F4FB,
    0x4369E96A, 0x346ED9FC, 0xAD678846, 0xDA60B8D0,
    0x44042D73, 0x33031DE5, 0xAA0A4C5F, 0xDD0D7CC9
  ]

  const ROW_7: seq<bv32> := [
    0x5005713C, 0x270241AA, 0xBE0B1010, 0xC90C2086,
    0x5768B525, 0x206F85B3, 0xB966D409, 0xCE61E49F,
    0x5EDEF90E, 0x29D9C998, 0xB0D09822, 0xC7D7A8B4,
    0x59B33D17, 0x2EB40D81, 0xB7BD5C3B, 0xC0BA6CAD
  ]

  const ROW_8: seq<bv32> := [
    0xEDB88320, 0x9ABFB3B6, 0x03B6E20C, 0x74B1D29A,
    0xEAD54739, 0x9DD277AF, 0x04DB2615, 0x73DC1683,
    0xE3630B12, 0x94643B84, 0x0D6D6A3E, 0x7A6A5AA8,
    0xE40ECF0B, 0x9309FF9D, 0x0A00AE27, 0x7D079EB1
  ]

  const ROW_9: seq<bv32> := [
    0xF00F9344, 0x8708A3D2, 0x1E01F268, 0x6906C2FE,
    0xF762575D, 0x806567CB, 0x196C3671, 0x6E6B06E7,
    0xFED41B76, 0x89D32BE0, 0x10DA7A5A, 0x67DD4ACC,
    0xF9B9DF6F, 0x8EBEEFF9, 0x17B7BE43, 0x60B08ED5
  ]

  const ROW_A: seq<bv32> := [
    0xD6D6A3E8, 0xA1D1937E, 0x38D8C2C4, 0x4FDFF252,
    0xD1BB67F1, 0xA6BC5767, 0x3FB506DD, 0x48B2364B,
    0xD80D2BDA, 0xAF0A1B4C, 0x36034AF6, 0x41047A60,
    0xDF60EFC3, 0xA867DF55, 0x316E8EEF, 0x4669BE79
  ]

  const ROW_B: seq<bv32> := [
    0xCB61B38C, 0xBC66831A, 0x256FD2A0, 0x5268E236,
    0xCC0C7795, 0xBB0B4703, 0x220216B9, 0x5505262F,
    0xC5BA3BBE, 0xB2BD0B28, 0x2BB45A92, 0x5CB36A04,
    0xC2D7FFA7, 0xB5D0CF31, 0x2CD99E8B, 0x5BDEAE1D
  ]

  const ROW_C: seq<bv32> := [
    0x9B64C2B0, 0xEC63F226, 0x756AA39C, 0x026D930A,
    0x9C0906A9, 0xEB0E363F, 0x72076785, 0x05005713,
    0x95BF4A82, 0xE2B87A14, 0x7BB12BAE, 0x0CB61B38,
    0x92D28E9B, 0xE5D5BE0D, 0x7CDCEFB7, 0x0BDBDF21
  ]

  const ROW_D: seq<bv32> := [
    0x86D3D2D4, 0xF1D4E242, 0x68DDB3F8, 0x1FDA836E,
    0x81BE16CD, 0xF6B9265B, 0x6FB077E1, 0x18B74777,
    0x88085AE6, 0xFF0F6A70, 0x66063BCA, 0x11010B5C,
    0x8F659EFF, 0xF862AE69, 0x616BFFD3, 0x166CCF45
  ]

  const ROW_E: seq<bv32> := [
    0xA00AE278, 0xD70DD2EE, 0x4E048354, 0x3903B3C2,
    0xA7672661, 0xD06016F7, 0x4969474D, 0x3E6E77DB,
    0xAED16A4A, 0xD9D65ADC, 0x40DF0B66, 0x37D83BF0,
    0xA9BCAE53, 0xDEBB9EC5, 0x47B2CF7F, 0x30B5FFE9
  ]

  const ROW_F: seq<bv32> := [
    0xBDBDF21C, 0xCABAC28A, 0x53B39330, 0x24B4A3A6,
    0xBAD03605, 0xCDD70693, 0x54DE5729, 0x23D967BF,
    0xB3667A2E, 0xC4614AB8, 0x5D681B02, 0x2A6F2B94,
    0xB40BBE37, 0xC30C8EA1, 0x5A05DF1B, 0x2D02EF8D
  ]

  /** The 256 constants, laid out by the high half of the index. */
  const CRC32_TABLE: seq<seq<bv32>> := [
    ROW_0, ROW_1, ROW_2, ROW_3, ROW_4, ROW_5, ROW_6, ROW_7,
    ROW_8, ROW_9, ROW_A, ROW_B, ROW_C, ROW_D, ROW_E, ROW_F
  ]

  function TableAt(i: bv8): bv32 { CRC32_TABLE[(i >> 4) as int][(i & 15) as int] }

  predicate FirstRowAt(k: bv8) {
    k < 16 && ROW_0[k as int] == Shifts(k as bv32, 8)
  }

  lemma FirstRowFrom0(k: bv8)
    requires 0 <= k < 4
    ensures ROW_0[k as int] == Shifts(k as bv32, 8)
  {
    assert FirstRowAt(0) && FirstRowAt(1) && FirstRowAt(2) && FirstRowAt(3);
    assert k == 0 || k == 1 || k == 2 || k == 3;
  }

  lemma FirstRowFrom4(k: bv8)
    requires 4 <= k < 8
    ensures ROW_0[k as int] == Shifts(k as bv32, 8)
  {
    assert FirstRowAt(4) && FirstRowAt(5) && FirstRowAt(6) && FirstRowAt(7);
    assert k == 4 || k == 5 || k == 6 || k == 7;
  }

  lemma FirstRowFrom8(k: bv8)
    requires 8 <= k < 12
    ensures ROW_0[k as int] == Shifts(k as bv32, 8)
  {
    assert FirstRowAt(8) && FirstRowAt(9) && FirstRowAt(10) && FirstRowAt(11);
    assert k == 8 || k == 9 || k == 10 || k == 11;
  }

  lemma FirstRowFrom12(k: bv8)
    requires 12 <= k < 16
    ensures ROW_0[k as int] == Shifts(k as bv32, 8)
  {
    assert FirstRowAt(12) && FirstRowAt(13) && FirstRowAt(14) && FirstRowAt(15);
    assert k == 12 || k == 13 || k == 14 || k == 15;
  }

  lemma FirstRow(k: bv8)
    requires k < 16
    ensures ROW_0[k as int] == Shifts(k as bv32, 8)
  {
    if k < 4 {
      FirstRowFrom0(k);
    } else if k < 8 {
      FirstRowFrom4(k);
    } else if k < 12 {
      FirstRowFrom8(k);
    } else {
      FirstRowFrom12(k);
    }
  }

  lemma FirstColumn(j: bv8)
    requires j < 16
    ensures CRC32_TABLE[j as int][0] == Shifts((j as bv32) << 4, 8)
  {
  }

  /** The constant is that of the first row with the head of its own row added. */
  predicate Alike(row: seq<bv32>, k: nat)
    requires |row| == 16 && k < 16
  {
    row[k] == Xor(row[0], ROW_0[k])
  }

  lemma Row0Alike(k: nat)
    requires k < 16
    ensures Alike(ROW_0, k)
  {
  }

  lemma Row1Alike(k: nat)
    requires k < 16
    ensures Alike(ROW_1, k)
  {
  }

  lemma Row2Alike(k: nat)
    requires k < 16
    ensures Alike(ROW_2, k)
  {
  }

  lemma Row3Alike(k: nat)
    requires k < 16
    ensures Alike(ROW_3, k)
  {
  }

  lemma Row4Alike(k: nat)
    requires k < 16
    ensures Alike(ROW_4, k)
  {
  }

  lemma Row5Alike(k: nat)
    requires k < 16
    ensures Alike(ROW_5, k)
  {
  }

  lemma Row6Alike(k: nat)
    requires k < 16
    ensures Alike(ROW_6, k)
  {
  }

  lemma Row7Alike(k: nat)
    requires k < 16
    ensures Alike(ROW_7, k)
  {
  }

  lemma Row8Alike(k: nat)
    requires k < 16
    ensures Alike(ROW_8, k)
  {
  }

  lemma Row9Alike(k: nat)
    requires k < 16
    ensures Alike(ROW_9, k)
  {
  }

  lemma RowAAlike(k: nat)
    requires k < 16
    ensures Alike(ROW_A, k)
  {
  }

  lemma RowBAlike(k: nat)
    requires k < 16
    ensures Alike(ROW_B, k)
  {
  }

  lemma RowCAlike(k: nat)
    requires k < 16
    ensures Alike(ROW_C, k)
  {
  }

  lemma RowDAlike(k: nat)
    requires k < 16
    ensures Alike(ROW_D, k)
  {
  }

  lemma RowEAlike(k: nat)
    requires k < 16
    ensures Alike(ROW_E, k)
  {
  }

  lemma RowFAlike(k: nat)
    requires k < 16
    ensures Alike(ROW_F, k)
  {
  }

  lemma RowsAlikeFrom0(j: nat, k: nat)
    requires 0 <= j < 4 && k < 16
    ensures |CRC32_TABLE[j]| == 16 && Alike(CRC32_TABLE[j], k)
  {
    if j == 0 {
      Row0Alike(k);
    } else if j == 1 {
      Row1Alike(k);
    } else if j == 2 {
      Row2Alike(k);
    } else {
      Row3Alike(k);
    }
  }

  lemma RowsAlikeFrom4(j: nat, k: nat)
    requires 4 <= j < 8 && k < 16
    ensures |CRC32_TABLE[j]| == 16 && Alike(CRC32_TABLE[j], k)
  {
    if j == 4 {
      Row4Alike(k);
    } else if j == 5 {
      Row5Alike(k);
    } else if j == 6 {
      Row6Alike(k);
    } else {
      Row7Alike(k);
    }
  }

  lemma RowsAlikeFrom8(j: nat, k: nat)
    requires 8 <= j < 12 && k < 16
    ensures |CRC32_TABLE[j]| == 16 && Alike(CRC32_TABLE[j], k)
  {
    if j == 8 {
      Row8Alike(k);
    } else if j == 9 {
      Row9Alike(k);
    } else if j == 10 {
      RowAAlike(k);
    } else {
      RowBAlike(k);
    }
  }

  lemma RowsAlikeFrom12(j: nat, k: nat)
    requires 12 <= j < 16 && k < 16
    ensures |CRC32_TABLE[j]| == 16 && Alike(CRC32_TABLE[j], k)
  {
    if j == 12 {
      RowCAlike(k);
    } else if j == 13 {
      RowDAlike(k);
    } else if j == 14 {
      RowEAlike(k);
    } else {
      RowFAlike(k);
    }
  }

  /** Every row is the first row with the head of the row added. */
  lemma RowsAlike(j: nat, k: nat)
    requires j < 16 && k < 16
    ensures |CRC32_TABLE[j]| == 16 && Alike(CRC32_TABLE[j], k)
  {
    if j < 4 {
      RowsAlikeFrom0(j, k);
    } else if j < 8 {
      RowsAlikeFrom4(j, k);
    } else if j < 12 {
      RowsAlikeFrom8(j, k);
    } else {
      RowsAlikeFrom12(j, k);
    }
  }

  lemma Nibbles(i: bv8)
    ensures i as bv32 == Xor(((i >> 4) as bv32) << 4, (i & 15) as bv32)
    ensures i >> 4 < 16 && i & 15 < 16
  {
  }

  /** Each of the 256 constants is its own index after eight shifts. */
  lemma TableIsShifts(i: bv8, n: nat)
    requires n == 8
    ensures TableAt(i) == Shifts(i as bv32, n)
  {
    var j, k := i >> 4, i & 15;
    Nibbles(i);
    FirstRow(k);
    FirstColumn(j);
    RowsAlike(j as nat, k as nat);
    ShiftsLinear((j as bv32) << 4, k as bv32, n);
  }

  // ------------------------------------------------------------- byte strings

  /** One byte goes into the register. */
  function Feed(crc: bv32, b: bv8): bv32 { Shifts(Xor(crc, b as bv32), 8) }

  /** The register after a byte string. */
  function Crc(data: seq<bv8>, crc: bv32): bv32 {
    if data == [] then crc else Feed(Crc(data[..|data| - 1], crc), data[|data| - 1])
  }

  const ALL_ONES: bv32 := 0xFFFF_FFFF

  function Complement(x: bv32): bv32 { x ^ ALL_ONES }

  /** The check value of a byte string. */
  function Checksum(data: seq<bv8>): bv32 { Complement(Crc(data, ALL_ONES)) }

  /** The step of the table-driven form. */
  function TableStep(crc: bv32, b: bv8): bv32 { Xor(Moved(crc), TableAt(TableIndex(crc, b))) }

  function TableIndex(crc: bv32, b: bv8): bv8 { ((crc ^ (b as bv32)) & 0xFF) as bv8 }

  lemma TableIndexIsLow(crc: bv32, b: bv8)
    ensures TableIndex(crc, b) as bv32 == Low(Xor(crc, b as bv32))
    ensures Moved(crc) == Moved(Xor(crc, b as bv32))
  {
  }

  lemma TableStepIsShifts(crc: bv32, b: bv8, n: nat)
    requires n == 8
    ensures TableStep(crc, b) == Shifts(Xor(crc, b as bv32), n)
  {
    TableIndexIsLow(crc, b);
    ShiftsSplit(Xor(crc, b as bv32), n);
    TableIsShifts(TableIndex(crc, b), n);
  }

  /** One look-up does what eight shifts do. */
  lemma TableStepIsFeed(crc: bv32, b: bv8)
    ensures TableStep(crc, b) == Feed(crc, b)
  {
    TableStepIsShifts(crc, b, 8);
  }

  /** A check value can be computed piece by piece. */
  lemma {:induction false} CrcOfParts(a: seq<bv8>, b: seq<bv8>, crc: bv32)
    ensures Crc(a + b, crc) == Crc(b, Crc(a, crc))
  {
    if b == [] {
      assert a + b == a;
    } else {
      CrcOfParts(a, b[..|b| - 1], crc);
      assert (a + b)[..|a + b| - 1] == a + b[..|b| - 1];
    }
  }
}
