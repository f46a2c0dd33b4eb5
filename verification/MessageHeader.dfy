// The 32-byte header in front of every message, in network byte order, and the check value that covers the
// header (its own field read as zero) and the payload.

module MessageHeader {

  import opened Crc32
  import opened Checksums

  datatype Header = Header(
    magic: bv32, version: bv16, kind: bv16, flags: bv16, reserved: bv16,
    payloadLength: bv32, id: bv64, timestamp: bv32, check: bv32)

  const HEADER_SIZE := 32

  // ------------------------------------------------------ network byte order

  function Put16(x: bv16): seq<bv8> { [(x >> 8) as bv8, (x & 0xFF) as bv8] }

  function Get16(b: seq<bv8>): bv16
    requires |b| == 2
  {
    ((b[0] as bv16) << 8) | (b[1] as bv16)
  }

  function Put32(x: bv32): seq<bv8> {
    [(x >> 24) as bv8, ((x >> 16) & 0xFF) as bv8, ((x >> 8) & 0xFF) as bv8, (x & 0xFF) as bv8]
  }

  function Get32(b: seq<bv8>): bv32
    requires |b| == 4
  {
    ((b[0] as bv32) << 24) | ((b[1] as bv32) << 16) | ((b[2] as bv32) << 8) | (b[3] as bv32)
  }

  function Put64(x: bv64): seq<bv8> {
    Put32((x >> 32) as bv32) + Put32((x & 0xFFFF_FFFF) as bv32)
  }

  function Get64(b: seq<bv8>): bv64
    requires |b| == 8
  {
    ((Get32(b[..4]) as bv64) << 32) | (Get32(b[4..]) as bv64)
  }

  lemma Join16(x: bv16)
    ensures (((x >> 8) as bv8 as bv16) << 8) | ((x & 0xFF) as bv8 as bv16) == x
  {
  }

  lemma Put16Get16(x: bv16)
    ensures Get16(Put16(x)) == x
  {
    Join16(x);
  }

  lemma Put32Get32(x: bv32)
    ensures Get32(Put32(x)) == x
  {
  }

  lemma Get32Put32(b: seq<bv8>)
    requires |b| == 4
    ensures Put32(Get32(b)) == b
  {
  }

  lemma Get16Put16(b: seq<bv8>)
    requires |b| == 2
    ensures Put16(Get16(b)) == b
  {
  }

  lemma Halves64(x: bv64)
    ensures (((x >> 32) as bv32 as bv64) << 32) | ((x & 0xFFFF_FFFF) as bv32 as bv64) == x
  {
  }

  lemma Put64Get64(x: bv64)
    ensures Get64(Put64(x)) == x
  {
    Put32Get32((x >> 32) as bv32);
    Put32Get32((x & 0xFFFF_FFFF) as bv32);
    Halves64(x);
  }

  lemma Words64(h: bv32, l: bv32)
    ensures ((((h as bv64) << 32) | (l as bv64)) >> 32) as bv32 == h
    ensures ((((h as bv64) << 32) | (l as bv64)) & 0xFFFF_FFFF) as bv32 == l
  {
  }

  lemma Get64Put64(b: seq<bv8>)
    requires |b| == 8
    ensures Put64(Get64(b)) == b
  {
    Get32Put32(b[..4]);
    Get32Put32(b[4..]);
    Words64(Get32(b[..4]), Get32(b[4..]));
    assert b[..4] + b[4..] == b;
  }

  // ---------------------------------------------------------------- the header

  /** The header in front of its check value. */
  function Front(h: Header): (b: seq<bv8>)
    ensures |b| == 28
  {
    Put32(h.magic) + Put16(h.version) + Put16(h.kind) + Put16(h.flags) + Put16(h.reserved)
    + Put32(h.payloadLength) + Put64(h.id) + Put32(h.timestamp)
  }

  function Serialized(h: Header): (b: seq<bv8>)
    ensures |b| == HEADER_SIZE
  {
    Front(h) + Put32(h.check)
  }

  function Deserialized(b: seq<bv8>): Header
    requires |b| == HEADER_SIZE
  {
    Header(Get32(b[0..4]), Get16(b[4..6]), Get16(b[6..8]), Get16(b[8..10]), Get16(b[10..12]),
           Get32(b[12..16]), Get64(b[16..24]), Get32(b[24..28]), Get32(b[28..32]))
  }

  function Joined9(a: seq<bv8>, b: seq<bv8>, c: seq<bv8>, d: seq<bv8>, e: seq<bv8>,
                   f: seq<bv8>, g: seq<bv8>, h: seq<bv8>, i: seq<bv8>): seq<bv8> {
    a + b + c + d + e + f + g + h + i
  }

  lemma Pieces(a: seq<bv8>, b: seq<bv8>, c: seq<bv8>, d: seq<bv8>, e: seq<bv8>,
               f: seq<bv8>, g: seq<bv8>, h: seq<bv8>, i: seq<bv8>)
    requires |a| == |f| == |h| == |i| == 4 && |b| == |c| == |d| == |e| == 2 && |g| == 8
    ensures |Joined9(a, b, c, d, e, f, g, h, i)| == HEADER_SIZE
    ensures Deserialized(Joined9(a, b, c, d, e, f, g, h, i))
         == Header(Get32(a), Get16(b), Get16(c), Get16(d), Get16(e), Get32(f), Get64(g), Get32(h), Get32(i))
  {
    var s := Joined9(a, b, c, d, e, f, g, h, i);
    assert s[0..4] == a && s[4..6] == b && s[6..8] == c && s[8..10] == d && s[10..12] == e;
    assert s[12..16] == f && s[16..24] == g && s[24..28] == h && s[28..32] == i;
  }

  lemma DeserializedOfSerialized(h: Header)
    ensures Deserialized(Serialized(h)) == h
  {
    Pieces(Put32(h.magic), Put16(h.version), Put16(h.kind), Put16(h.flags), Put16(h.reserved),
           Put32(h.payloadLength), Put64(h.id), Put32(h.timestamp), Put32(h.check));
    Put32Get32(h.magic); Put16Get16(h.version); Put16Get16(h.kind);
    Put16Get16(h.flags); Put16Get16(h.reserved); Put32Get32(h.payloadLength);
    Put64Get64(h.id); Put32Get32(h.timestamp); Put32Get32(h.check);
  }

  lemma BytesOf16(x: bv16)
    ensures var b := Put16(x); x == ((b[0] as bv16) << 8) | (b[1] as bv16)
  {
    Join16(x);
  }

  lemma BytesOf32(x: bv32)
    ensures var b := Put32(x);
      x == ((b[0] as bv32) << 24) | ((b[1] as bv32) << 16) | ((b[2] as bv32) << 8) | (b[3] as bv32)
  {
    Put32Get32(x);
  }

  /** The 32 bytes of a header: every field at its offset; BytesOf16 and BytesOf32 say that its high byte comes
      first. */
  lemma HeaderLayout(h: Header)
    ensures var b := Serialized(h);
      && |b| == 32 && b[0..4] == Put32(h.magic) && b[4..6] == Put16(h.version) && b[6..8] == Put16(h.kind)
      && b[8..10] == Put16(h.flags) && b[10..12] == Put16(h.reserved) && b[12..16] == Put32(h.payloadLength)
      && b[16..20] == Put32((h.id >> 32) as bv32) && b[20..24] == Put32((h.id & 0xFFFF_FFFF) as bv32)
      && b[24..28] == Put32(h.timestamp) && b[28..32] == Put32(h.check)
  {
    PlacesOfPieces(Put32(h.magic), Put16(h.version), Put16(h.kind), Put16(h.flags), Put16(h.reserved),
                   Put32(h.payloadLength), Put32((h.id >> 32) as bv32), Put32((h.id & 0xFFFF_FFFF) as bv32),
                   Put32(h.timestamp), Put32(h.check));
  }

  lemma PlacesOfPieces(a: seq<bv8>, b: seq<bv8>, c: seq<bv8>, d: seq<bv8>, e: seq<bv8>, f: seq<bv8>,
                       g: seq<bv8>, g': seq<bv8>, h: seq<bv8>, i: seq<bv8>)
    requires |a| == |f| == |g| == |g'| == |h| == |i| == 4 && |b| == |c| == |d| == |e| == 2
    ensures var s := Joined9(a, b, c, d, e, f, g + g', h, i);
      && |s| == 32 && s[0..4] == a && s[4..6] == b && s[6..8] == c && s[8..10] == d && s[10..12] == e
      && s[12..16] == f && s[16..20] == g && s[20..24] == g' && s[24..28] == h && s[28..32] == i
  {
  }

  lemma Slices(b: seq<bv8>)
    requires |b| == HEADER_SIZE
    ensures b == Joined9(b[0..4], b[4..6], b[6..8], b[8..10], b[10..12], b[12..16], b[16..24], b[24..28], b[28..32])
  {
  }

  lemma SerializedOfDeserialized(b: seq<bv8>)
    requires |b| == HEADER_SIZE
    ensures Serialized(Deserialized(b)) == b
  {
    Get32Put32(b[0..4]); Get16Put16(b[4..6]); Get16Put16(b[6..8]);
    Get16Put16(b[8..10]); Get16Put16(b[10..12]); Get32Put32(b[12..16]);
    Get64Put64(b[16..24]); Get32Put32(b[24..28]); Get32Put32(b[28..32]);
    Slices(b);
  }

  method CopyInto(buf: array<bv8>, at: nat, bytes: seq<bv8>)
    requires at + |bytes| <= buf.Length
    modifies buf
    ensures buf[..at + |bytes|] == old(buf[..at]) + bytes
    ensures forall k | at + |bytes| <= k < buf.Length :: buf[k] == old(buf[k])
  {
    for k := 0 to |bytes|
      invariant buf[..at + k] == old(buf[..at]) + bytes[..k]
      invariant forall i | at + |bytes| <= i < buf.Length :: buf[i] == old(buf[i])
    {
      buf[at + k] := bytes[k];
    }
  }

  /** Writing the header, field by field, touches the first 32 bytes of the buffer only. */
  method SerializeHeader(h: Header, buf: array<bv8>)
    requires buf.Length >= HEADER_SIZE
    modifies buf
    ensures buf[..HEADER_SIZE] == Serialized(h)
    ensures buf[HEADER_SIZE..] == old(buf[HEADER_SIZE..])
  {
    WriteFront(h, buf);
    CopyInto(buf, 28, Put32(h.check));
  }

  method WriteKind(h: Header, buf: array<bv8>)
    requires buf.Length >= HEADER_SIZE
    modifies buf
    ensures buf[..12] == Put32(h.magic) + Put16(h.version) + Put16(h.kind) + Put16(h.flags) + Put16(h.reserved)
    ensures forall k | 12 <= k < buf.Length :: buf[k] == old(buf[k])
  {
    assert buf[..0] == [];
    CopyInto(buf, 0, Put32(h.magic));
    CopyInto(buf, 4, Put16(h.version));
    CopyInto(buf, 6, Put16(h.kind));
    CopyInto(buf, 8, Put16(h.flags));
    CopyInto(buf, 10, Put16(h.reserved));
  }

  method WriteFront(h: Header, buf: array<bv8>)
    requires buf.Length >= HEADER_SIZE
    modifies buf
    ensures buf[..28] == Front(h)
    ensures forall k | 28 <= k < buf.Length :: buf[k] == old(buf[k])
  {
    WriteKind(h, buf);
    CopyInto(buf, 12, Put32(h.payloadLength));
    CopyInto(buf, 16, Put64(h.id));
    CopyInto(buf, 24, Put32(h.timestamp));
  }

  // --------------------------------------------------------- the check value

  /** What the check field should hold: its own bytes count as zero. */
  function CheckOf(h: Header, payload: seq<bv8>): bv32 {
    Checksum(Serialized(h.(check := 0)) + payload)
  }

  class HeaderRecord {
    var header: Header

    constructor (h: Header)
      ensures header == h
    {
      header := h;
    }

    method ComputeCheck(payload: seq<bv8>)
      modifies this
      ensures header == old(header).(check := CheckOf(old(header), payload))
    {
      header := header.(check := 0);
      var bytes := Serialized(header);
      var crc := ComputeIncremental(bytes, ALL_ONES);
      CrcOfParts(bytes, payload, ALL_ONES);
      if |payload| > 0 {
        crc := ComputeIncremental(payload, crc);
      } else {
        assert bytes + payload == bytes;
      }
      header := header.(check := Complement(crc));
    }
  }

  /** Verification works on a copy. */
  method VerifyMessage(h: Header, payload: seq<bv8>) returns (ok: bool)
    ensures ok <==> Verifies(h, payload)
  {
    var copy := new HeaderRecord(h);
    copy.ComputeCheck(payload);
    ok := copy.header.check == h.check;
  }

  predicate Verifies(h: Header, payload: seq<bv8>) { h.check == CheckOf(h, payload) }

  /** A message as it leaves the sender is accepted. */
  lemma UntouchedAccepted(h: Header, payload: seq<bv8>)
    ensures Verifies(h.(check := CheckOf(h, payload)), payload)
    ensures Deserialized(Serialized(h.(check := CheckOf(h, payload)))) == h.(check := CheckOf(h, payload))
  {
    var sealed := h.(check := CheckOf(h, payload));
    assert sealed.(check := 0) == h.(check := 0);
    DeserializedOfSerialized(sealed);
  }

  // --------------------------------------------------------------- damage

  /** A header and a payload as received from the wire. */
  predicate Accepts(wire: seq<bv8>)
    requires |wire| >= HEADER_SIZE
  {
    Verifies(Deserialized(wire[..HEADER_SIZE]), wire[HEADER_SIZE..])
  }

  /** v differs from w inside the window [at, at + n) only. */
  ghost predicate DiffersWithin(w: seq<bv8>, v: seq<bv8>, at: nat, n: nat) {
    |v| == |w| && at + n <= |w| && v[..at] == w[..at] && v[at + n..] == w[at + n..]
  }

  /** The bytes the check value is taken over. */
  function Covered(wire: seq<bv8>): seq<bv8>
    requires |wire| >= HEADER_SIZE
  {
    wire[..28] + [0, 0, 0, 0] + wire[HEADER_SIZE..]
  }

  lemma AcceptsIff(wire: seq<bv8>)
    requires |wire| >= HEADER_SIZE
    ensures Accepts(wire) <==> Get32(wire[28..32]) == Checksum(Covered(wire))
  {
    var h := Deserialized(wire[..HEADER_SIZE]);
    SerializedOfDeserialized(wire[..HEADER_SIZE]);
    FrontOf(h);
    assert wire[..HEADER_SIZE][28..32] == wire[28..32];
    assert wire[..HEADER_SIZE][..28] == wire[..28];
  }

  lemma FrontOf(h: Header)
    ensures Serialized(h)[..28] == Front(h)
    ensures Serialized(h.(check := 0)) == Front(h) + [0, 0, 0, 0]
  {
    assert Put32(0) == [0, 0, 0, 0];
  }

  lemma SameChecksum(a: seq<bv8>, b: seq<bv8>, at: nat, n: nat)
    requires DiffersWithin(a, b, at, n) && n <= 4 && Checksum(a) == Checksum(b)
    ensures a == b
  {
    var front, back := a[..at], a[at + n..];
    assert a == front + a[at..at + n] + back && b == front + b[at..at + n] + back;
    ComplementInjective(Crc(a, ALL_ONES), Crc(b, ALL_ONES));
    BurstDetected(front, a[at..at + n], b[at..at + n], back, ALL_ONES);
  }

  lemma ComplementInjective(x: bv32, y: bv32)
    requires Complement(x) == Complement(y)
    ensures x == y
  {
  }

  lemma CoveredWithin(w: seq<bv8>, v: seq<bv8>, at: nat, n: nat)
    requires |w| >= HEADER_SIZE && DiffersWithin(w, v, at, n)
    requires at + n <= 28 || at >= HEADER_SIZE
    ensures DiffersWithin(Covered(w), Covered(v), at, n)
    ensures w[28..32] == v[28..32]
  {
    forall k | 0 <= k < |w| && (k < at || k >= at + n)
      ensures w[k] == v[k]
    {
      if k < at {
        assert w[..at][k] == v[..at][k];
      } else {
        assert w[at + n..][k - (at + n)] == v[at + n..][k - (at + n)];
      }
    }
    forall k | 0 <= k < |w| && (k < at || k >= at + n)
      ensures Covered(w)[k] == Covered(v)[k]
    {
    }
    assert Covered(w)[..at] == Covered(v)[..at];
    assert Covered(w)[at + n..] == Covered(v)[at + n..];
  }

  lemma CoveredAndCheck(w: seq<bv8>, v: seq<bv8>)
    requires |w| == |v| >= HEADER_SIZE && Covered(w) == Covered(v)
    requires Get32(w[28..32]) == Get32(v[28..32])
    ensures w == v
  {
    Get32Put32(w[28..32]);
    Get32Put32(v[28..32]);
    assert w[..28] == Covered(w)[..28] && v[..28] == Covered(v)[..28];
    assert w[32..] == Covered(w)[32..] && v[32..] == Covered(v)[32..];
    assert w == w[..28] + w[28..32] + w[32..] && v == v[..28] + v[28..32] + v[32..];
  }

  lemma CheckFieldOnly(w: seq<bv8>, v: seq<bv8>, n: nat)
    requires |w| >= HEADER_SIZE && DiffersWithin(w, v, 28, n) && n <= 4
    ensures Covered(w) == Covered(v)
  {
    assert w[32..] == w[28 + n..][4 - n..] && v[32..] == v[28 + n..][4 - n..];
  }

  /** Damage to the check field alone, or to at most four neighbouring bytes outside it, is always noticed. */
  lemma DamageDetected(w: seq<bv8>, v: seq<bv8>, at: nat, n: nat)
    requires |w| >= HEADER_SIZE && Accepts(w)
    requires DiffersWithin(w, v, at, n) && n <= 4
    requires at + n <= 28 || at == 28 || at >= HEADER_SIZE
    ensures Accepts(v) <==> v == w
  {
    AcceptsIff(w);
    AcceptsIff(v);
    if Accepts(v) {
      if at == 28 {
        CheckFieldOnly(w, v, n);
      } else {
        CoveredWithin(w, v, at, n);
        SameChecksum(Covered(w), Covered(v), at, n);
      }
      CoveredAndCheck(w, v);
    }
  }

  // --------------------------------------- damage across the edge of the field

  lemma ZeroFed(d: seq<bv8>, x: bv32, n: nat)
    requires n == 8
    ensures Crc(d + [0], x) == Shifts(Crc(d, x), n)
  {
    CrcOfOneMore(d, 0, x, n);
    assert Xor(Crc(d, x), 0) == Crc(d, x);
  }

  lemma ZerosFed(d: seq<bv8>, x: bv32, n: nat)
    requires n == 8
    ensures Crc(d + [0, 0, 0, 0], x) == Shifts(Crc(d, x), n + n + n + n)
  {
    assert d + [0, 0, 0, 0] == d + [0] + [0] + [0] + [0];
    ZeroFed(d, x, n);
    ZeroFed(d + [0], x, n);
    ZeroFed(d + [0] + [0], x, n);
    ZeroFed(d + [0] + [0] + [0], x, n);
    ShiftsAdd(Crc(d, x), n, n);
    ShiftsAdd(Crc(d, x), n + n, n);
    ShiftsAdd(Crc(d, x), n + n + n, n);
  }

  function Flipped(b: bv8, e: bv8): bv8 { b ^ e }

  lemma FlippedWide(y: bv32, b: bv8, e: bv8)
    ensures Xor(y, Flipped(b, e) as bv32) == Xor(Xor(y, b as bv32), e as bv32)
  {
  }

  /** Flipping bits of the last byte before the field moves the check value by a constant. */
  lemma LastByteFlipped(d: seq<bv8>, b: bv8, e: bv8, x: bv32, n: nat)
    requires n == 8
    ensures Crc(d + [Flipped(b, e)] + [0, 0, 0, 0], x)
         == Xor(Crc(d + [b] + [0, 0, 0, 0], x), Shifts(e as bv32, n + n + n + n + n))
  {
    var y := Crc(d, x);
    CrcOfOneMore(d, b, x, n);
    CrcOfOneMore(d, Flipped(b, e), x, n);
    FlippedWide(y, b, e);
    ShiftsLinear(Xor(y, b as bv32), e as bv32, n);
    ZerosFed(d + [b], x, n);
    ZerosFed(d + [Flipped(b, e)], x, n);
    ShiftsLinear(Shifts(Xor(y, b as bv32), n), Shifts(e as bv32, n), n + n + n + n);
    ShiftsAdd(e as bv32, n, n + n + n + n);
  }

  const BYTE_FLIP: bv8 := 0x97

  const CHECK_FLIP: bv32 := 0x6326FB00

  lemma FlipStep1()
    ensures Shifts(0x00000097, 8) == 0x6E6B06E7
  {
  }

  lemma FlipStep2()
    ensures Shifts(0x6E6B06E7, 8) == 0x3E001CDD
  {
  }

  lemma FlipStep3()
    ensures Shifts(0x3E001CDD, 8) == 0xF85CAE75
  {
  }

  lemma FlipStep4()
    ensures Shifts(0xF85CAE75, 8) == 0x2097D91D
  {
  }

  lemma FlipStep5()
    ensures Shifts(0x2097D91D, 8) == 0x6326FB00
  {
  }

  lemma FlipShifts(n: nat)
    requires n == 8
    ensures Shifts(BYTE_FLIP as bv32, n + n + n + n + n) == CHECK_FLIP
  {
    FlipStep1();
    FlipStep2();
    FlipStep3();
    FlipStep4();
    FlipStep5();
    ShiftsAdd(0x97, n, n);
    ShiftsAdd(0x97, n + n, n);
    ShiftsAdd(0x97, n + n + n, n);
    ShiftsAdd(0x97, n + n + n + n, n);
  }

  function Damaged(h: Header): Header {
    h.(timestamp := Xor(h.timestamp, BYTE_FLIP as bv32), check := Xor(h.check, CHECK_FLIP))
  }

  lemma FrontDamaged(h: Header)
    ensures var d, b := Front(h)[..27], Front(h)[27];
      Front(h) == d + [b] && Front(Damaged(h)) == d + [Flipped(b, BYTE_FLIP)]
  {
    var start := Put32(h.magic) + Put16(h.version) + Put16(h.kind) + Put16(h.flags) + Put16(h.reserved)
                 + Put32(h.payloadLength) + Put64(h.id);
    var t, t' := Put32(h.timestamp), Put32(Damaged(h).timestamp);
    TimeFlipped(h.timestamp);
    assert Front(h) == start + t && Front(Damaged(h)) == start + t';
    assert Front(h)[..27] == start + t[..3];
  }

  lemma TimeFlipped(x: bv32)
    ensures var t, t' := Put32(x), Put32(Xor(x, BYTE_FLIP as bv32));
      t'[..3] == t[..3] && t' == t'[..3] + [Flipped(t[3], BYTE_FLIP)]
  {
  }

  lemma ComplementFlipped(x: bv32, d: bv32)
    ensures Complement(Xor(x, d)) == Xor(Complement(x), d)
  {
    XorSwapped(x, d, ALL_ONES);
    assert Complement(Xor(x, d)) == Xor(Xor(x, d), ALL_ONES) && Complement(x) == Xor(x, ALL_ONES);
  }

  lemma XorSwapped(x: bv32, d: bv32, a: bv32)
    ensures Xor(Xor(x, d), a) == Xor(Xor(x, a), d)
  {
    XorAssociates(x, d, a);
    XorCommutes(d, a);
    XorAssociates(x, a, d);
  }

  lemma XorAssociates(x: bv32, y: bv32, z: bv32)
    ensures Xor(Xor(x, y), z) == Xor(x, Xor(y, z))
  {
  }

  lemma XorCommutes(x: bv32, y: bv32)
    ensures Xor(x, y) == Xor(y, x)
  {
  }

  lemma CheckFlipped(x: bv32)
    ensures Put32(Xor(x, CHECK_FLIP))[3] == Put32(x)[3]
  {
  }

  lemma DamagedWithin(h: Header)
    ensures DiffersWithin(Serialized(h), Serialized(Damaged(h)), 27, 4)
  {
    FrontDamaged(h);
    CheckFlipped(h.check);
    var d := Front(h)[..27];
    assert Serialized(h)[..27] == d && Serialized(Damaged(h))[..27] == d;
    assert Serialized(h)[31..] == [Put32(h.check)[3]] && Serialized(Damaged(h))[31..] == [Put32(Damaged(h).check)[3]];
  }

  /** Damage that straddles the edge of the check field can go unnoticed: for every accepted message without payload
      there is another accepted one that differs from it in the bytes 27 to 30 alone. */
  lemma StraddlingDamageMissed(h: Header)
    requires Verifies(h, [])
    ensures Damaged(h) != h && Verifies(Damaged(h), [])
    ensures DiffersWithin(Serialized(h), Serialized(Damaged(h)), 27, 4)
  {
    var v := Damaged(h);
    var d, b := Front(h)[..27], Front(h)[27];
    FrontDamaged(h);
    FrontOf(h);
    FrontOf(v);
    LastByteFlipped(d, b, BYTE_FLIP, ALL_ONES, 8);
    FlipShifts(8);
    ComplementFlipped(Crc(Front(h) + [0, 0, 0, 0], ALL_ONES), CHECK_FLIP);
    NoPayload(h);
    NoPayload(v);
    FlipChanges(h.check);
    DamagedWithin(h);
  }

  lemma FlipChanges(x: bv32)
    ensures Xor(x, CHECK_FLIP) != x
  {
  }

  lemma NoPayload(h: Header)
    ensures CheckOf(h, []) == Complement(Crc(Front(h) + [0, 0, 0, 0], ALL_ONES))
  {
    FrontOf(h);
    assert Serialized(h.(check := 0)) + [] == Serialized(h.(check := 0));
  }
}
