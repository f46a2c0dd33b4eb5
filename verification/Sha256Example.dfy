// The SHA-256 of "abc", the worked example of FIPS 180-2, appendix B.1: it fixes every constant, rotation and order of
// the compressor and its schedule.

module Sha256Example {
  import opened ByteNumbers
  import opened Sha256

  /** The state after 8 * r rounds. */
  function StateAt(r: nat): State {
    match r
    case 0 => State(0x6a09e667, 0xbb67ae85, 0x3c6ef372, 0xa54ff53a, 0x510e527f, 0x9b05688c, 0x1f83d9ab, 0x5be0cd19)
    case 1 => State(0x85a07b5f, 0xe5030380, 0x2b4209f5, 0x04409a6a, 0x0c657a79, 0x9b27a401, 0x714260ad, 0x43ada245)
    case 2 => State(0xb0fa238e, 0xc0645fde, 0xd932eb16, 0x87912990, 0x07590dcd, 0x0b92f20c, 0x745a48de, 0x1e578218)
    case 3 => State(0xc5d53d8d, 0xa7a3623f, 0xc2606d6d, 0x9dc68b63, 0xaa47c347, 0x49f5114a, 0xe1257970, 0x8ada8930)
    case 4 => State(0x73b33bf5, 0xea992a22, 0xa0060b30, 0x363482c9, 0xba591112, 0x0109ab3a, 0xade79437, 0x6112a3b7)
    case 5 => State(0x79ea687a, 0x6dc57a8a, 0x34df1604, 0x41a65cb1, 0x1efbc0a0, 0xf0781bc8, 0xa507a53d, 0x0772a26b)
    case 6 => State(0x4172328d, 0xa14c14b0, 0x72ab4b91, 0x26628815, 0xfecf0bc6, 0xd57b94a9, 0xb7755da1, 0xa80f11f0)
    case 7 => State(0x38cc9913, 0x3ec45cdb, 0xf5702fdb, 0x101fd28f, 0x54cb266b, 0xe50e1b4f, 0x9f4787c3, 0x529e7d00)
    case _ => State(0x506e3058, 0xd39a2165, 0x04d24d6c, 0xb85e2ce9, 0x5ef50f24, 0xfb121210, 0x948d25b6, 0x961f4894)
  }

  /** Words 8 * r to 8 * r + 7 of the schedule. */
  function Words(r: nat): (w: seq<bv32>)
    ensures |w| == 8
  {
    match r
    case 0 => [0x61626380, 0x00000000, 0x00000000, 0x00000000, 0x00000000, 0x00000000, 0x00000000, 0x00000000]
    case 1 => [0x00000000, 0x00000000, 0x00000000, 0x00000000, 0x00000000, 0x00000000, 0x00000000, 0x00000018]
    case 2 => [0x61626380, 0x000f0000, 0x7da86405, 0x600003c6, 0x3e9d7b78, 0x0183fc00, 0x12dcbfdb, 0xe2e2c38e]
    case 3 => [0xc8215c1a, 0xb73679a2, 0xe5bc3909, 0x32663c5b, 0x9d209d67, 0xec8726cb, 0x702138a4, 0xd3b7973b]
    case 4 => [0x93f5997f, 0x3b68ba73, 0xaff4ffc1, 0xf10a5c62, 0x0a8b3996, 0x72af830a, 0x9409e33e, 0x24641522]
    case 5 => [0x9f47bf94, 0xf0a64f5a, 0x3e246a79, 0x27333ba3, 0x0c4763f2, 0x840abf27, 0x7a290d5d, 0x065c43da]
    case 6 => [0xfb3e89cb, 0xcc7617db, 0xb9e66c34, 0xa9993667, 0x84badedd, 0xc21462bc, 0x1487472c, 0xb20f7a99]
    case _ => [0xef57b9cd, 0xebe6b238, 0x9fe3095e, 0x78bc8d4b, 0xa43fcf15, 0x668b2ff8, 0xeeaba2cc, 0x12b1edeb]
  }

  // -------------------------------------------------------------- eight at a time

  /** Eight steps of any kind, each with a constant and a word. */
  function EightSteps<S, A>(f: (S, A, A) -> S, s: S, k: seq<A>, w: seq<A>): S
    requires |k| == |w| == 8
  {
    f(f(f(f(f(f(f(f(s, k[0], w[0]), k[1], w[1]), k[2], w[2]), k[3], w[3]), k[4], w[4]), k[5], w[5]), k[6], w[6]),
      k[7], w[7])
  }

  predicate IsRun<S(==), A>(f: (S, A, A) -> S, k: seq<A>, w: seq<A>, y: seq<S>) {
    |k| == |w| == 64 && |y| == 65 && forall t | 0 <= t < 64 :: y[t + 1] == f(y[t], k[t], w[t])
  }

  lemma RunRow<S, A>(f: (S, A, A) -> S, k: seq<A>, w: seq<A>, y: seq<S>, r: nat)
    requires IsRun(f, k, w, y) && r < 8
    ensures y[8 * r + 8] == EightSteps(f, y[8 * r], k[8 * r..8 * r + 8], w[8 * r..8 * r + 8])
  {
    var t := 8 * r;
    assert y[t + 1] == f(y[t], k[t], w[t]) && y[t + 2] == f(y[t + 1], k[t + 1], w[t + 1]);
    assert y[t + 3] == f(y[t + 2], k[t + 2], w[t + 2]) && y[t + 4] == f(y[t + 3], k[t + 3], w[t + 3]);
    assert y[t + 5] == f(y[t + 4], k[t + 4], w[t + 4]) && y[t + 6] == f(y[t + 5], k[t + 5], w[t + 5]);
    assert y[t + 7] == f(y[t + 6], k[t + 6], w[t + 6]) && y[t + 8] == f(y[t + 7], k[t + 7], w[t + 7]);
  }

  lemma {:induction false} RunByRows<S, A>(f: (S, A, A) -> S, k: seq<A>, w: seq<A>, y: seq<S>, states: seq<S>, r: nat)
    requires IsRun(f, k, w, y) && |states| == 9 && y[0] == states[0] && r <= 8
    requires forall q | 0 <= q < 8 ::
      EightSteps(f, states[q], k[8 * q..8 * q + 8], w[8 * q..8 * q + 8]) == states[q + 1]
    ensures y[8 * r] == states[r]
  {
    if r > 0 {
      RunByRows(f, k, w, y, states, r - 1);
      RunRow(f, k, w, y, r - 1);
    }
  }

  /** The eight words behind sixteen. */
  function EightWords<A>(f: (A, A, A, A) -> A, u: seq<A>, v: seq<A>): seq<A>
    requires |u| == |v| == 8
  {
    var w8, w9 := f(u[0], u[1], v[1], v[6]), f(u[1], u[2], v[2], v[7]);
    var w10, w11 := f(u[2], u[3], v[3], w8), f(u[3], u[4], v[4], w9);
    var w12, w13 := f(u[4], u[5], v[5], w10), f(u[5], u[6], v[6], w11);
    [w8, w9, w10, w11, w12, w13, f(u[6], u[7], v[7], w12), f(u[7], v[0], w8, w13)]
  }

  predicate ExpandsAt<A(==)>(f: (A, A, A, A) -> A, x: seq<A>, t: nat)
    requires 16 <= t < |x|
  {
    x[t] == f(x[t - 16], x[t - 15], x[t - 7], x[t - 2])
  }

  predicate IsSchedule<A(==)>(f: (A, A, A, A) -> A, x: seq<A>) {
    |x| == 64 && forall t | 16 <= t < 64 :: ExpandsAt(f, x, t)
  }

  lemma ScheduleRow<A>(f: (A, A, A, A) -> A, x: seq<A>, r: nat, u: seq<A>, v: seq<A>)
    requires IsSchedule(f, x) && 2 <= r < 8 && |u| == |v| == 8
    requires x[8 * r - 16..8 * r - 8] == u && x[8 * r - 8..8 * r] == v
    ensures x[8 * r..8 * r + 8] == EightWords(f, u, v)
  {
    var t := 8 * r;
    assert forall j | 0 <= j < 8 :: x[t - 16 + j] == u[j] && x[t - 8 + j] == v[j];
    assert ExpandsAt(f, x, t) && ExpandsAt(f, x, t + 1) && ExpandsAt(f, x, t + 2) && ExpandsAt(f, x, t + 3);
    assert ExpandsAt(f, x, t + 4) && ExpandsAt(f, x, t + 5) && ExpandsAt(f, x, t + 6) && ExpandsAt(f, x, t + 7);
    assert x[t] == f(u[0], u[1], v[1], v[6]) && x[t + 1] == f(u[1], u[2], v[2], v[7]);
    assert x[t + 2] == f(u[2], u[3], v[3], x[t]) && x[t + 3] == f(u[3], u[4], v[4], x[t + 1]);
    assert x[t + 4] == f(u[4], u[5], v[5], x[t + 2]) && x[t + 5] == f(u[5], u[6], v[6], x[t + 3]);
    assert x[t + 6] == f(u[6], u[7], v[7], x[t + 4]) && x[t + 7] == f(u[7], v[0], x[t], x[t + 5]);
  }

  lemma {:induction false} ScheduleByRows<A>(f: (A, A, A, A) -> A, x: seq<A>, rows: seq<seq<A>>, r: nat)
    requires IsSchedule(f, x) && |rows| == 8 && (forall q | 0 <= q < 8 :: |rows[q]| == 8)
    requires x[0..8] == rows[0] && x[8..16] == rows[1] && r < 8
    requires forall q | 2 <= q < 8 :: rows[q] == EightWords(f, rows[q - 2], rows[q - 1])
    ensures x[8 * r..8 * r + 8] == rows[r]
  {
    if r >= 2 {
      ScheduleByRows(f, x, rows, r - 2);
      ScheduleByRows(f, x, rows, r - 1);
      ScheduleRow(f, x, r, rows[r - 2], rows[r - 1]);
    }
  }

  // ------------------------------------------------------------------ row by row

  lemma Rounds0(r: nat)
    requires r == 0
    ensures EightSteps(Round, StateAt(r), Constants(r), Words(r)) == StateAt(r + 1)
  {
  }

  lemma Rounds1(r: nat)
    requires r == 1
    ensures EightSteps(Round, StateAt(r), Constants(r), Words(r)) == StateAt(r + 1)
  {
  }

  lemma Rounds2(r: nat)
    requires r == 2
    ensures EightSteps(Round, StateAt(r), Constants(r), Words(r)) == StateAt(r + 1)
  {
  }

  lemma Rounds3(r: nat)
    requires r == 3
    ensures EightSteps(Round, StateAt(r), Constants(r), Words(r)) == StateAt(r + 1)
  {
  }

  lemma Rounds4(r: nat)
    requires r == 4
    ensures EightSteps(Round, StateAt(r), Constants(r), Words(r)) == StateAt(r + 1)
  {
  }

  lemma Rounds5(r: nat)
    requires r == 5
    ensures EightSteps(Round, StateAt(r), Constants(r), Words(r)) == StateAt(r + 1)
  {
  }

  lemma Rounds6(r: nat)
    requires r == 6
    ensures EightSteps(Round, StateAt(r), Constants(r), Words(r)) == StateAt(r + 1)
  {
  }

  lemma Rounds7(r: nat)
    requires r == 7
    ensures EightSteps(Round, StateAt(r), Constants(r), Words(r)) == StateAt(r + 1)
  {
  }

  lemma Words2(r: nat)
    requires r == 2
    ensures EightWords(Expand, Words(r - 2), Words(r - 1)) == Words(r)
  {
  }

  lemma Words3(r: nat)
    requires r == 3
    ensures EightWords(Expand, Words(r - 2), Words(r - 1)) == Words(r)
  {
  }

  lemma Words4(r: nat)
    requires r == 4
    ensures EightWords(Expand, Words(r - 2), Words(r - 1)) == Words(r)
  {
  }

  lemma Words5(r: nat)
    requires r == 5
    ensures EightWords(Expand, Words(r - 2), Words(r - 1)) == Words(r)
  {
  }

  lemma Words6(r: nat)
    requires r == 6
    ensures EightWords(Expand, Words(r - 2), Words(r - 1)) == Words(r)
  {
  }

  lemma Words7(r: nat)
    requires r == 7
    ensures EightWords(Expand, Words(r - 2), Words(r - 1)) == Words(r)
  {
  }

  lemma RoundsOfRow(r: nat)
    requires r < 8
    ensures EightSteps(Round, StateAt(r), Constants(r), Words(r)) == StateAt(r + 1)
  {
    match r
    case 0 => Rounds0(r); case 1 => Rounds1(r); case 2 => Rounds2(r); case 3 => Rounds3(r);
    case 4 => Rounds4(r); case 5 => Rounds5(r); case 6 => Rounds6(r); case _ => Rounds7(r);
  }

  lemma WordsOfRow(r: nat)
    requires 2 <= r < 8
    ensures EightWords(Expand, Words(r - 2), Words(r - 1)) == Words(r)
  {
    match r
    case 2 => Words2(r); case 3 => Words3(r); case 4 => Words4(r); case 5 => Words5(r);
    case 6 => Words6(r); case _ => Words7(r);
  }

  // ---------------------------------------------------------------- the example

  const ABC: Bytes := [0x61, 0x62, 0x63]

  lemma WordFrom(block: Bytes, i: nat, a: bv8, b: bv8, c: bv8, d: bv8)
    requires |block| == BLOCK && i < 16
    requires block[4 * i] == a && block[4 * i + 1] == b && block[4 * i + 2] == c && block[4 * i + 3] == d
    ensures Schedule(block, i) == ((a as bv32) << 24) | ((b as bv32) << 16) | ((c as bv32) << 8) | (d as bv32)
  {
  }

  lemma PaddedExample(m: Bytes) returns (p: Bytes)
    requires |m| == 3
    ensures p == Padded(m) && |p| == BLOCK && p[..4] == m + [0x80] && p[63] == 24
    ensures forall k | 4 <= k < 63 :: p[k] == 0
  {
    var length := LengthOfExample();
    p := m + ([0x80] + Zeros(52) + length);
    FourPieces(m, [0x80], Zeros(52), length);
    assert p == Padded(m) by {
      assert ZeroCount(|m|) == 52 && 8 * |m| % LENGTH_MODULUS == 24;
    }
  }

  lemma FourPieces(a: Bytes, b: Bytes, c: Bytes, d: Bytes)
    requires |a| == 3 && |b| == 1 && |c| == 52 && |d| == 8
    ensures var p := a + (b + c + d);
      && |p| == 64 && p[..4] == a + b
      && (forall k | 4 <= k < 56 :: p[k] == c[k - 4]) && (forall k | 56 <= k < 64 :: p[k] == d[k - 56])
  {
  }

  lemma FirstRows(p: Bytes)
    requires |p| == BLOCK && p[..4] == ABC + [0x80] && p[63] == 24
    requires forall k | 4 <= k < 63 :: p[k] == 0
    ensures forall t | 0 <= t < 16 :: Schedule(p, t) == if t < 8 then Words(0)[t] else Words(1)[t - 8]
  {
    assert p[0] == p[..4][0] && p[1] == p[..4][1] && p[2] == p[..4][2] && p[3] == p[..4][3];
    WordFrom(p, 0, 0x61, 0x62, 0x63, 0x80);
    WordFrom(p, 15, 0, 0, 0, 24);
    forall i | 1 <= i < 15 ensures Schedule(p, i) == 0 {
      WordFrom(p, i, 0, 0, 0, 0);
    }
  }

  lemma ScheduleOfBlock(p: Bytes) returns (x: seq<bv32>)
    requires |p| == BLOCK
    ensures IsSchedule(Expand, x) && forall t | 0 <= t < 64 :: x[t] == Schedule(p, t)
  {
    x := seq(64, t requires 0 <= t < 64 => Schedule(p, t));
    forall t | 16 <= t < 64 ensures ExpandsAt(Expand, x, t) {
      ExpandedAt(p, t);
    }
  }

  lemma ExpandedAt(p: Bytes, t: nat)
    requires |p| == BLOCK && 16 <= t < 64
    ensures Schedule(p, t)
         == Expand(Schedule(p, t - 16), Schedule(p, t - 15), Schedule(p, t - 7), Schedule(p, t - 2))
  {
  }

  lemma RunOfBlock(s: State, p: Bytes, k: seq<bv32>, x: seq<bv32>) returns (y: seq<State>)
    requires |p| == BLOCK && |k| == |x| == 64
    requires forall t | 0 <= t < 64 :: k[t] == K(t) && x[t] == Schedule(p, t)
    ensures IsRun(Round, k, x, y) && y[0] == s && y[64] == Rounds(s, p, 64)
  {
    y := seq(65, t requires 0 <= t < 65 => Rounds(s, p, t));
  }

  predicate HasConstants(k: seq<bv32>) {
    |k| == 64 && forall q | 0 <= q < 8 :: k[8 * q..8 * q + 8] == Constants(q)
  }

  predicate HasWords(x: seq<bv32>) {
    |x| == 64 && forall q | 0 <= q < 8 :: x[8 * q..8 * q + 8] == Words(q)
  }

  lemma AllConstants() returns (k: seq<bv32>)
    ensures HasConstants(k) && forall t | 0 <= t < 64 :: k[t] == K(t)
  {
    k := seq(64, t requires 0 <= t < 64 => K(t));
    forall q | 0 <= q < 8 ensures k[8 * q..8 * q + 8] == Constants(q) {
      RowOfConstants(k, q);
    }
  }

  lemma RowOfConstants(k: seq<bv32>, r: nat)
    requires |k| == 64 && r < 8 && forall t | 0 <= t < 64 :: k[t] == K(t)
    ensures k[8 * r..8 * r + 8] == Constants(r)
  {
    forall j | 0 <= j < 8 ensures k[8 * r + j] == Constants(r)[j] {
      assert (8 * r + j) / 8 == r && (8 * r + j) % 8 == j;
    }
  }

  lemma AllRows() returns (rows: seq<seq<bv32>>)
    ensures |rows| == 8 && forall q | 0 <= q < 8 :: rows[q] == Words(q) && |rows[q]| == 8
    ensures forall q | 2 <= q < 8 :: rows[q] == EightWords(Expand, rows[q - 2], rows[q - 1])
  {
    rows := seq(8, q requires 0 <= q < 8 => Words(q));
    forall q | 2 <= q < 8 ensures rows[q] == EightWords(Expand, rows[q - 2], rows[q - 1]) {
      WordsOfRow(q);
    }
  }

  lemma AllStates(k: seq<bv32>, x: seq<bv32>) returns (states: seq<State>)
    requires HasConstants(k) && HasWords(x)
    ensures |states| == 9 && states[0] == StateAt(0) && states[8] == StateAt(8)
    ensures forall q | 0 <= q < 8 ::
      EightSteps(Round, states[q], k[8 * q..8 * q + 8], x[8 * q..8 * q + 8]) == states[q + 1]
  {
    states := seq(9, q requires 0 <= q < 9 => StateAt(q));
    forall q | 0 <= q < 8
      ensures EightSteps(Round, states[q], k[8 * q..8 * q + 8], x[8 * q..8 * q + 8]) == states[q + 1]
    {
      RoundsOfRow(q);
    }
  }

  lemma RowsOfSchedule(x: seq<bv32>)
    requires IsSchedule(Expand, x) && x[0..8] == Words(0) && x[8..16] == Words(1)
    ensures HasWords(x)
  {
    var rows := AllRows();
    forall q | 0 <= q < 8 ensures x[8 * q..8 * q + 8] == Words(q) {
      ScheduleByRows(Expand, x, rows, q);
    }
  }

  lemma ScheduleOfExample(p: Bytes) returns (x: seq<bv32>)
    requires |p| == BLOCK
    requires forall t | 0 <= t < 16 :: Schedule(p, t) == if t < 8 then Words(0)[t] else Words(1)[t - 8]
    ensures HasWords(x) && forall t | 0 <= t < 64 :: x[t] == Schedule(p, t)
  {
    x := ScheduleOfBlock(p);
    assert x[0..8] == Words(0) && x[8..16] == Words(1);
    RowsOfSchedule(x);
  }

  lemma RoundsOfExample(s: State, p: Bytes, x: seq<bv32>)
    requires s == StateAt(0) && |p| == BLOCK && HasWords(x) && forall t | 0 <= t < 64 :: x[t] == Schedule(p, t)
    ensures Rounds(s, p, 64) == StateAt(8)
  {
    var k := AllConstants();
    var y := RunOfBlock(s, p, k, x);
    RunOfRows(k, x, y);
  }

  lemma RunOfRows(k: seq<bv32>, x: seq<bv32>, y: seq<State>)
    requires IsRun(Round, k, x, y) && y[0] == StateAt(0)
    requires HasConstants(k) && HasWords(x)
    ensures y[64] == StateAt(8)
  {
    var states := AllStates(k, x);
    RunByRows(Round, k, x, y, states, 8);
  }

  lemma LengthOfExample() returns (length: Bytes)
    ensures length == LengthBytes(24) == [0, 0, 0, 0, 0, 0, 0, 24]
  {
    length := LengthBytes(24);
    var ds := LengthDigits(24);
    assert ds == [0, 0, 0, 0, 0, 0, 0, 24];
    Bytewise(ds);
  }

  lemma {:induction false} Bytewise(ds: seq<nat>)
    requires AreDigits(ds)
    ensures forall k | 0 <= k < |ds| :: ToBytes(ds)[k] == ToByte(ds[k])
  {
    if ds != [] {
      Bytewise(ds[..|ds| - 1]);
    }
  }

  lemma CompressedExample(s: State, p: Bytes)
    requires s == StateAt(0) && |p| == BLOCK && p[..4] == ABC + [0x80] && p[63] == 24
    requires forall k | 4 <= k < 63 :: p[k] == 0
    ensures Compress(s, p) == Add(s, StateAt(8))
  {
    FirstRows(p);
    var x := ScheduleOfExample(p);
    RoundsOfExample(s, p, x);
  }

  /** SHA-256 of the three bytes "abc". */
  lemma HashOfAbc()
    ensures OverBlocks(Compress, INITIAL, Padded(ABC))
         == State(0xba7816bf, 0x8f01cfea, 0x414140de, 0x5dae2223, 0xb00361a3, 0x96177a9c, 0xb410ff61, 0xf20015ad)
  {
    var p := PaddedExample(ABC);
    CompressedExample(INITIAL, p);
    OverOneBlock(Compress, INITIAL, [], p);
    assert [] + p == p;
  }
}
